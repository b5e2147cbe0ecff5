/**
 The CRC engines: the bitwise `CrcBasic`, the table-driven `CrcOptimal` with its
 lazily filled `CrcTable`, and the augmented-message loop. Words may be wider
 than the remainder; bits above it hold garbage and are masked on output only.
 */
module CrcEngines {
  import opened Words
  import opened CrcDivision
  import opened CrcAugmented
  import opened CrcWordSteps

  /** Reflects the `n` low bits of `x`. */
  method Reflect(n: nat, x: Word) returns (reflection: Word)
    requires n <= |x|
    ensures reflection == Resize(Mirror(x[..n]), |x|)
  {
    reflection := Zeros(|x|);
    var v := x;
    for i := 0 to n
      invariant v == Shr(x, i) && |reflection| == |x|
      invariant forall k :: 0 <= k < |x| ==> reflection[k] == (n - i <= k < n && x[n - 1 - k])
    {
      SingleBit(v, 0);
      if Nonzero(And(v, Bit(|x|, 0))) {
        reflection := Or(reflection, Bit(|x|, n - 1 - i));
      }
      v := Shr(v, 1);
    }
  }

  class CrcBasic {
    const bits: nat
    const poly: Word
    const init: Word
    const final: Word
    const reflectIn: bool
    const reflectRem: bool
    var rem: Word

    ghost predicate Valid()
      reads this
    {
      1 <= bits <= |poly| && |rem| == |init| == |final| == |poly|
    }

    /** The remainder this state stands for: its low bits. */
    ghost function Interim(): Word
      requires Valid()
      reads this
    {
      rem[..bits]
    }

    constructor (bits: nat, poly: Word, init: Word, final: Word, reflectIn: bool, reflectRem: bool)
      requires 1 <= bits <= |poly| && |init| == |final| == |poly|
      ensures Valid() && Interim() == init[..bits]
      ensures this.bits == bits && this.poly == poly && this.init == init && this.final == final
      ensures this.reflectIn == reflectIn && this.reflectRem == reflectRem
    {
      this.bits, this.poly, this.init, this.final := bits, poly, init, final;
      this.reflectIn, this.reflectRem, this.rem := reflectIn, reflectRem, init;
    }

    method Reset(newRem: Word)
      requires Valid() && |newRem| == |poly|
      modifies this
      ensures Valid() && Interim() == newRem[..bits]
    {
      rem := newRem;
    }

    method GetInterimRemainder() returns (r: Word)
      requires Valid()
      ensures r == Resize(Interim(), |poly|)
    {
      r := And(rem, LowMask(|poly|, bits));
    }

    method ProcessBit(bit: bool)
      requires Valid()
      modifies this
      ensures Valid() && Interim() == DivStep(poly[..bits], old(Interim()), bit)
    {
      LowStep(bits, poly, rem, bit);
      var high := Bit(|poly|, bits - 1);
      rem := Xor(rem, if bit then high else Zeros(|poly|));
      SingleBit(rem, bits - 1);
      var doPolyDiv := Nonzero(And(rem, high));
      rem := Shl(rem, 1);
      if doPolyDiv {
        rem := Xor(rem, poly);
      }
    }

    /** Feeds the `count` low bits of `byte`, highest first. */
    method ProcessBits(byte: Byte, count: nat)
      requires Valid() && count <= 8
      modifies this
      ensures Valid() && Interim() == DivBits(poly[..bits], old(Interim()), Mirror(byte[..count]))
    {
      ghost var p, r, fed := poly[..bits], Interim(), Mirror(byte[..count]);
      var v: Byte := Shl(byte, 8 - count);
      var i := count;
      while i > 0
        invariant 0 <= i <= count && Valid()
        invariant v == Shl(byte, 8 - i)
        invariant Interim() == DivBits(p, r, fed[..count - i])
      {
        SingleBit(v, 7);
        ShiftedTop(byte, count, i);
        DivBitsSnoc(p, r, fed, count - i);
        ProcessBit(Nonzero(And(v, Bit(8, 7))));
        i := i - 1;
        v := Shl(v, 1);
      }
      assert fed[..count] == fed;
    }

    method ProcessByte(byte: Byte)
      requires Valid()
      modifies this
      ensures Valid() && Interim() == DivBits(poly[..bits], old(Interim()), ByteBits(byte, reflectIn))
    {
      var b := byte;
      if reflectIn {
        b := Reflect(8, byte);
        ReflectedByte(byte);
      }
      assert b[..8] == b;
      ProcessBits(b, 8);
    }

    method ProcessBlock(msg: seq<Byte>)
      requires Valid()
      modifies this
      ensures Valid() && Interim() == DivBits(poly[..bits], old(Interim()), MessageBits(msg, reflectIn))
    {
      for i := 0 to |msg|
        invariant Valid()
        invariant Interim() == DivBits(poly[..bits], old(Interim()), MessageBits(msg[..i], reflectIn))
      {
        MessageSnoc(poly[..bits], old(Interim()), msg, i, reflectIn);
        ProcessByte(msg[i]);
      }
      assert msg[..|msg|] == msg;
    }

    method Checksum() returns (c: Word)
      requires Valid()
      ensures c == Resize(Publish(Interim(), final[..bits], reflectRem), |poly|)
    {
      var out := rem;
      if reflectRem {
        out := Reflect(bits, rem);
      }
      c := And(Xor(out, final), LowMask(|poly|, bits));
    }
  }

  /** The lookup table shared by all engines with one width, polynomial and input reflection. */
  class CrcTable {
    const bits: nat
    const poly: Word
    const reflected: bool
    const slots: array<Word>
    var didInit: bool

    ghost predicate Valid()
      reads this, slots
    {
      && 1 <= bits <= |poly| && |poly| >= 8 && slots.Length == 256
      && (didInit ==> Filled())
    }

    ghost predicate Filled()
      reads slots
      requires 1 <= bits <= |poly| && slots.Length == 256
    {
      forall b: Byte :: SlotHolds(ByteIndex(b), b)
    }

    /** Slot `k` holds the eight-step division of `b`, clean if it is kept reflected. */
    ghost predicate SlotHolds(k: nat, b: Byte)
      reads slots
      requires 1 <= bits <= |poly| && k < slots.Length
    {
      SlotFor(bits, poly, reflected, b, slots[k])
    }

    ghost predicate FilledBelow(n: nat)
      reads slots
      requires 1 <= bits <= |poly| && slots.Length == 256
    {
      forall d :: 0 <= d < n ==> SlotHolds(ByteIndex(Home(d, reflected)), Home(d, reflected))
    }

    lemma AllHomesFilled()
      requires 1 <= bits <= |poly| && slots.Length == 256 && FilledBelow(256)
      ensures Filled()
    {
      forall b: Byte ensures SlotHolds(ByteIndex(b), b) {
        var d := HomesCoverAll(b, reflected);
      }
    }

    constructor (bits: nat, poly: Word, reflected: bool)
      requires 1 <= bits <= |poly| && |poly| >= 8
      ensures Valid() && !didInit && fresh(slots)
      ensures this.bits == bits && this.poly == poly && this.reflected == reflected
    {
      this.bits, this.poly, this.reflected := bits, poly, reflected;
      didInit := false;
      slots := new Word[256](i => Zeros(|poly|));
    }

    method InitTable()
      requires Valid()
      modifies this, slots
      ensures Valid() && didInit
      ensures old(didInit) ==> slots[..] == old(slots[..])
    {
      if didInit {
        return;
      }
      var dividend: nat, done := 0, false;
      ghost var filled: nat := 0;
      while !done
        invariant !didInit && filled == (if done then 256 else dividend) <= 256
        invariant dividend < 256 && FilledBelow(filled)
        decreases 256 - filled
      {
        FillSlot(dividend);
        filled := filled + 1;
        dividend := (dividend + 1) % 256;
        done := dividend == 0;
      }
      AllHomesFilled();
      didInit := true;
    }

    /** The body of the outer loop: divide one byte and store the result in its place. */
    method FillSlot(dividend: nat)
      requires Valid() && !didInit && dividend < 256 && FilledBelow(dividend)
      modifies slots
      ensures Valid() && FilledBelow(dividend + 1)
    {
      var index, slot := ComputeSlot(dividend);
      slots[ByteIndex(index)] := slot;
      forall d | 0 <= d < dividend
        ensures SlotHolds(ByteIndex(Home(d, reflected)), Home(d, reflected))
      {
        HomesAreDistinct(d, dividend, reflected);
        assert old(SlotHolds(ByteIndex(Home(d, reflected)), Home(d, reflected)));
      }
    }

    method ComputeSlot(dividend: nat) returns (index: Byte, slot: Word)
      requires Valid() && dividend < 256
      ensures index == Home(dividend, reflected) && SlotFor(bits, poly, reflected, index, slot)
    {
      index := FromNat(dividend, 8);
      slot := DivideByte(bits, poly, index);
      ghost var b := index;
      if reflected {
        ReflectedByte(index);
        index := Reflect(8, index);
        slot := Reflect(bits, slot);
      }
      SlotFilled(bits, poly, reflected, b, slot);
    }
  }

  /** Divides one byte, starting from zero: the inner loop that fills a slot. */
  method DivideByte(bits: nat, poly: Word, dividend: Byte) returns (remainder: Word)
    requires 1 <= bits <= |poly|
    ensures |remainder| == |poly|
    ensures remainder[..bits] == DivBits(poly[..bits], Zeros(bits), Mirror(dividend))
  {
    ghost var p, fed, j := poly[..bits], Mirror(dividend), 0;
    var high := Bit(|poly|, bits - 1);
    remainder := Zeros(|poly|);
    var mask := Bit(8, 7);
    while Nonzero(mask)
      invariant 0 <= j <= 8 && mask == Shr(Bit(8, 7), j) && |remainder| == |poly|
      invariant remainder[..bits] == DivBits(p, Zeros(bits), fed[..j])
      decreases 8 - j
    {
      MaskLive(j);
      MaskAt(dividend, j);
      LowStep(bits, poly, remainder, fed[j]);
      DivBitsSnoc(p, Zeros(bits), fed, j);
      if Nonzero(And(dividend, mask)) {
        remainder := Xor(remainder, high);
      } else {
        XorZeros(remainder);
      }
      SingleBit(remainder, bits - 1);
      if Nonzero(And(remainder, high)) {
        remainder := Shl(remainder, 1);
        remainder := Xor(remainder, poly);
      } else {
        remainder := Shl(remainder, 1);
      }
      mask := Shr(mask, 1);
      j := j + 1;
    }
    MaskLive(j);
    assert fed[..8] == fed;
  }

  class CrcOptimal {
    const table: CrcTable
    const init: Word
    const final: Word
    const reflectRem: bool
    var rem: Word

    ghost predicate Valid()
      reads this, table, table.slots
    {
      && table.Valid() && table.didInit
      && |rem| == |init| == |final| == |table.poly|
      && Represents(table.bits, table.reflected, rem, Interim())
    }

    /** The remainder this state stands for; it is kept reflected when the input is. */
    ghost function Interim(): Word
      reads this, table
    {
      if table.bits > |rem| then []
      else if table.reflected then Mirror(rem[..table.bits]) else rem[..table.bits]
    }

    constructor (table: CrcTable, init: Word, final: Word, reflectRem: bool, initRem: Word)
      requires table.Valid() && |init| == |final| == |initRem| == |table.poly|
      modifies table, table.slots
      ensures Valid() && Interim() == initRem[..table.bits]
      ensures this.table == table && this.init == init && this.final == final && this.reflectRem == reflectRem
    {
      this.table, this.init, this.final, this.reflectRem := table, init, final, reflectRem;
      var r := initRem;
      if table.reflected {
        r := Reflect(table.bits, initRem);
        ReflectedRepresents(table.bits, initRem);
      }
      rem := r;
      new;
      table.InitTable();
    }

    method Reset(newRem: Word)
      requires Valid() && |newRem| == |table.poly|
      modifies this
      ensures Valid() && Interim() == newRem[..table.bits]
    {
      var r := newRem;
      if table.reflected {
        r := Reflect(table.bits, newRem);
        ReflectedRepresents(table.bits, newRem);
      }
      rem := r;
    }

    method GetInterimRemainder() returns (r: Word)
      requires Valid()
      ensures r == Resize(Interim(), |table.poly|)
    {
      r := rem;
      if table.reflected {
        r := Reflect(table.bits, rem);
      }
      r := And(r, LowMask(|table.poly|, table.bits));
    }

    method ProcessBlock(msg: seq<Byte>)
      requires Valid()
      modifies this
      ensures Valid()
      ensures Interim() == DivBits(table.poly[..table.bits], old(Interim()), MessageBits(msg, table.reflected))
    {
      ghost var p, r := table.poly[..table.bits], Interim();
      for i := 0 to |msg|
        invariant Valid()
        invariant Interim() == DivBits(p, r, MessageBits(msg[..i], table.reflected))
      {
        ghost var before := Interim();
        MessageSnoc(p, r, msg, i, table.reflected);
        var index := HelperIndex(table.bits, table.reflected, rem, msg[i]);
        assert table.SlotHolds(ByteIndex(index), index);
        var slot := table.slots[ByteIndex(index)];
        ByteStep(table.bits, table.poly, table.reflected, rem, before, msg[i], slot);
        rem := HelperShift(table.reflected, rem);
        rem := Xor(rem, slot);
        RepresentsUnique(table.bits, table.reflected, rem, DivBits(p, before, ByteBits(msg[i], table.reflected)));
      }
      assert msg[..|msg|] == msg;
    }

    method Checksum() returns (c: Word)
      requires Valid()
      ensures c == Resize(Publish(Interim(), final[..table.bits], reflectRem), |table.poly|)
    {
      var out := rem;
      if reflectRem != table.reflected {
        out := Reflect(table.bits, rem);
      }
      c := And(Xor(out, final), LowMask(|table.poly|, table.bits));
      PublishFrom(table.bits, table.reflected, reflectRem, rem, out, final);
    }
  }

  /** The one-shot CRC of a buffer. */
  method Crc(table: CrcTable, init: Word, final: Word, reflectRem: bool, msg: seq<Byte>) returns (c: Word)
    requires table.Valid() && |init| == |final| == |table.poly|
    modifies table, table.slots
    ensures c == Resize(Publish(DivBits(table.poly[..table.bits], init[..table.bits], MessageBits(msg, table.reflected)),
                                final[..table.bits], reflectRem), |table.poly|)
  {
    var computer := new CrcOptimal(table, init, final, reflectRem, init);
    computer.ProcessBlock(msg);
    c := computer.Checksum();
  }

  method AugmentedCrc(table: CrcTable, msg: seq<Byte>, initialRemainder: Word) returns (c: Word)
    requires table.Valid() && !table.reflected && table.bits >= 8 && |initialRemainder| == |table.poly|
    modifies table, table.slots
    ensures c == Resize(AugBits(table.poly[..table.bits], initialRemainder[..table.bits], MessageBits(msg, false)),
                        |table.poly|)
  {
    ghost var p, r := table.poly[..table.bits], initialRemainder[..table.bits];
    var rem := initialRemainder;
    table.InitTable();
    for i := 0 to |msg|
      invariant table.Valid() && table.didInit && |rem| == |table.poly|
      invariant rem[..table.bits] == AugBits(p, r, MessageBits(msg[..i], false))
    {
      AugmentedSnoc(p, r, msg, i);
      rem := AugmentedByte(table, rem, msg[i]);
    }
    assert msg[..|msg|] == msg;
    c := And(rem, LowMask(|rem|, table.bits));
  }

  /** The loop body of `AugmentedCrc`. */
  method AugmentedByte(table: CrcTable, before: Word, x: Byte) returns (rem: Word)
    requires table.Valid() && table.didInit && !table.reflected && table.bits >= 8 && |before| == |table.poly|
    ensures |rem| == |before|
    ensures rem[..table.bits] == AugBits(table.poly[..table.bits], before[..table.bits], ByteBits(x, false))
  {
    var index: Byte := Resize(Shr(before, table.bits - 8), 8);
    assert table.SlotHolds(ByteIndex(index), index);
    AugmentedByteStep(table.bits, table.poly, before, x, table.slots[ByteIndex(index)]);
    rem := Shl(before, 8);
    rem := Or(rem, Resize(x, |rem|));
    rem := Xor(rem, table.slots[ByteIndex(index)]);
  }

  /** One polynomial, final xor and pair of reflect flags, whatever the two word widths. */
  ghost predicate SameParameters(basic: CrcBasic, optimal: CrcOptimal) {
    && 1 <= basic.bits == optimal.table.bits
    && basic.bits <= |basic.poly| == |basic.final|
    && basic.bits <= |optimal.table.poly| == |optimal.final|
    && basic.poly[..basic.bits] == optimal.table.poly[..basic.bits]
    && basic.final[..basic.bits] == optimal.final[..basic.bits]
    && basic.reflectIn == optimal.table.reflected && basic.reflectRem == optimal.reflectRem
  }

  /** Fed the same blocks from the same remainder, the two engines cannot be told apart. */
  method EnginesAgree(basic: CrcBasic, optimal: CrcOptimal, blocks: seq<seq<Byte>>)
    returns (slowSum: Word, fastSum: Word, slowRem: Word, fastRem: Word)
    requires basic.Valid() && optimal.Valid() && SameParameters(basic, optimal)
    requires basic.Interim() == optimal.Interim()
    modifies basic, optimal
    ensures basic.Valid() && optimal.Valid() && basic.Interim() == optimal.Interim()
    ensures slowSum == Resize(fastSum, |slowSum|) && slowRem == Resize(fastRem, |slowRem|)
    ensures fastSum == Resize(slowSum, |fastSum|) && fastRem == Resize(slowRem, |fastRem|)
  {
    for i := 0 to |blocks|
      invariant basic.Valid() && optimal.Valid() && basic.Interim() == optimal.Interim()
    {
      basic.ProcessBlock(blocks[i]);
      optimal.ProcessBlock(blocks[i]);
    }
    slowSum := basic.Checksum();
    fastSum := optimal.Checksum();
    slowRem := basic.GetInterimRemainder();
    fastRem := optimal.GetInterimRemainder();
    ghost var sum := Publish(basic.Interim(), basic.final[..basic.bits], basic.reflectRem);
    SameUpToWidth(sum, |slowSum|, |fastSum|);
    SameUpToWidth(basic.Interim(), |slowSum|, |fastSum|);
  }
}
