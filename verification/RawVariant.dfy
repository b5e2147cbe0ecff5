/**
 Packing and unpacking of variants through the streams, and the two-pass `pack`
 that counts first and then writes into a buffer of exactly that size.
 */
module RawVariant {
  import opened RawTypes
  import opened DataStream
  import opened VariantCodec
  import Varint
  import VariantLaws

  //  Packing

  method PackString(s: Sink, chars: Bytes) returns (st: Status)
    requires s.Valid()
    modifies s, s.buf
    ensures s.Valid()
    ensures st == Done <==> old(s.Fits(|EncodeString(chars)|))
    ensures st == Done ==> s.out == old(s.out) + EncodeString(chars)
    ensures st == Overrun ==> |chars| >= 0x8000_0000
  {
    st := PackUnsigned(s, Count(|chars|));
    if st == Done && |chars| > 0 {
      st := s.Write(chars);
    }
  }

  method PackVariant(s: Sink, v: Variant) returns (st: Status)
    requires s.Valid()
    modifies s, s.buf
    ensures s.Valid()
    ensures st == Done <==> old(s.Fits(|Encode(v)|))
    ensures st == Done ==> s.out == old(s.out) + Encode(v)
    ensures WellFormed(v) ==> st != Overrun
    decreases v, 2
  {
    TypeAndBody(v, s.out);
    st := s.Write([TypeId(v)]);
    if st == Done {
      st := PackBody(s, v);
    }
  }

  lemma TypeAndBody(v: Variant, out: Bytes)
    ensures |Encode(v)| == |[TypeId(v)]| + |EncodeBody(v)| && out + Encode(v) == out + [TypeId(v)] + EncodeBody(v)
  {
    assert Encode(v) == [TypeId(v)] + EncodeBody(v);
  }

  /** The visitor that writes what follows the type. */
  method PackBody(s: Sink, v: Variant) returns (st: Status)
    requires s.Valid()
    modifies s, s.buf
    ensures s.Valid()
    ensures st == Done <==> old(s.Fits(|EncodeBody(v)|))
    ensures st == Done ==> s.out == old(s.out) + EncodeBody(v)
    ensures WellFormed(v) ==> st != Overrun
    decreases v, 1
  {
    match v {
      case Null => st := Done;
      case Int64(i) => st := s.Write(EncodeUInt64(Unsigned(i)));
      case UInt64(u) => st := s.Write(EncodeUInt64(u));
      case Double(image) => st := s.Write(image);
      case Bool(b) => st := s.Write(EncodeBool(b));
      case String(chars) => st := PackString(s, chars);
      case Array(vs) => st := PackArray(s, vs);
      case Object(es) =>
        assert WellFormed(v) ==> GoodEntries(es);
        st := PackObject(s, es);
    }
  }

  method PackArray(s: Sink, vs: seq<Variant>) returns (st: Status)
    requires s.Valid()
    modifies s, s.buf
    ensures s.Valid()
    ensures st == Done <==> old(s.Fits(|Varint.Encode(Count(|vs|)) + EncodeAll(vs)|))
    ensures st == Done ==> s.out == old(s.out) + (Varint.Encode(Count(|vs|)) + EncodeAll(vs))
    ensures AllWellFormed(vs) ==> st != Overrun
    decreases vs, 0
  {
    ghost var total := s.out + (Varint.Encode(Count(|vs|)) + EncodeAll(vs));
    st := PackUnsigned(s, Count(|vs|));
    if st != Done {
      return;
    }
    ghost var rest := EncodeAll(vs);
    assert vs[0..] == vs;
    for i := 0 to |vs|
      invariant s.Valid() && st == Done && s.out + rest == total && rest == EncodeAll(vs[i..])
    {
      NextOfAll(vs, i, s.out);
      rest := EncodeAll(vs[i + 1..]);
      st := PackVariant(s, vs[i]);
      if st != Done {
        return;
      }
    }
  }

  lemma NextOfAll(vs: seq<Variant>, i: nat, out: Bytes)
    requires i < |vs|
    ensures out + EncodeAll(vs[i..]) == out + Encode(vs[i]) + EncodeAll(vs[i + 1..])
  {
    assert vs[i..][0] == vs[i] && vs[i..][1..] == vs[i + 1..];
  }

  lemma NextOfEntries(es: seq<Entry>, i: nat, out: Bytes)
    requires i < |es|
    ensures out + EncodeEntries(es[i..])
         == out + EncodeString(es[i].key) + Encode(es[i].value) + EncodeEntries(es[i + 1..])
  {
    assert es[i..][0] == es[i] && es[i..][1..] == es[i + 1..];
  }

  method PackObject(s: Sink, es: seq<Entry>) returns (st: Status)
    requires s.Valid()
    modifies s, s.buf
    ensures s.Valid()
    ensures st == Done <==> old(s.Fits(|Varint.Encode(Count(|es|)) + EncodeEntries(es)|))
    ensures st == Done ==> s.out == old(s.out) + (Varint.Encode(Count(|es|)) + EncodeEntries(es))
    ensures EntriesWellFormed(es) ==> st != Overrun
    decreases es, 0
  {
    ghost var total := s.out + (Varint.Encode(Count(|es|)) + EncodeEntries(es));
    st := PackUnsigned(s, Count(|es|));
    if st != Done {
      return;
    }
    ghost var rest := EncodeEntries(es);
    assert es[0..] == es;
    for i := 0 to |es|
      invariant s.Valid() && st == Done && s.out + rest == total && rest == EncodeEntries(es[i..])
    {
      NextOfEntries(es, i, s.out);
      rest := EncodeEntries(es[i + 1..]);
      st := PackString(s, es[i].key);
      if st != Done {
        return;
      }
      st := PackVariant(s, es[i].value);
      if st != Done {
        return;
      }
    }
  }

  /** The two-pass pack: the second pass never fails and fills its buffer to the last byte. */
  method Pack(v: Variant) returns (bytes: array<Octet>, ghost st: Status)
    ensures fresh(bytes) && st == Done
    ensures bytes[..] == Encode(v)
  {
    var ps := new Sink.Counting();
    st := PackVariant(ps, v);
    var size := ps.Tellp();
    bytes := new Octet[size];
    if bytes.Length > 0 {
      var ds := new Sink.Writing(bytes);
      st := PackVariant(ds, v);
      assert bytes[..ds.pos] == bytes[..];
    }
  }

  method PackSize(v: Variant) returns (n: nat)
    ensures n == |Encode(v)|
  {
    var ps := new Sink.Counting();
    var st := PackVariant(ps, v);
    n := ps.Tellp();
  }

  //  Unpacking

  method UnpackString(s: Source) returns (r: Outcome<Bytes>)
    requires s.Valid()
    modifies s
    ensures s.Valid() && Agrees(DecodeString(old(s.Left())), r, s.Left())
  {
    var size := UnpackUnsigned(s);
    if size.Threw? {
      return Threw(size.error);
    }
    if size.value >= MAX_ARRAY_ALLOC_SIZE {
      return Threw(TooLong);
    }
    r := s.Read(size.value);
  }

  method UnpackUInt64(s: Source) returns (r: Outcome<uint64>)
    requires s.Valid()
    modifies s
    ensures s.Valid() && Agrees(DecodeUInt64(old(s.Left())), r, s.Left())
  {
    var image := s.Read(8);
    if image.Threw? {
      return Threw(image.error);
    }
    FromLittleEndianBound(image.value);
    assert Pow256(8) == 0x1_0000_0000_0000_0000;
    r := Got(FromLittleEndian(image.value));
  }

  method UnpackBool(s: Source) returns (r: Outcome<bool>)
    requires s.Valid()
    modifies s
    ensures s.Valid() && Agrees(DecodeBool(old(s.Left())), r, s.Left())
  {
    var b := s.Read(1);
    if b.Threw? {
      return Threw(b.error);
    }
    if b.value[0] > 1 {
      return Threw(BadBool);
    }
    r := Got(b.value[0] != 0);
  }

  method UnpackVariant(s: Source) returns (r: Outcome<Variant>)
    requires s.Valid()
    modifies s
    ensures s.Valid() && Agrees(Decode(old(s.Left())), r, s.Left())
    decreases s.buf.Length - s.pos, 0
  {
    var t := s.Read(1);
    if t.Threw? {
      return Threw(t.error);
    }
    match t.value[0] {
      case 0 => r := Got(Null);
      case 1 =>
        var u := UnpackUInt64(s);
        r := if u.Threw? then Threw(u.error) else Got(Int64(Signed(u.value)));
      case 2 =>
        var u := UnpackUInt64(s);
        r := if u.Threw? then Threw(u.error) else Got(UInt64(u.value));
      case 3 =>
        var d := s.Read(8);
        r := if d.Threw? then Threw(d.error) else Got(Double(d.value));
      case 4 =>
        var b := UnpackBool(s);
        r := if b.Threw? then Threw(b.error) else Got(Bool(b.value));
      case 5 =>
        var c := UnpackString(s);
        r := if c.Threw? then Threw(c.error) else Got(String(c.value));
      case 6 =>
        var vs := UnpackArray(s);
        r := if vs.Threw? then Threw(vs.error) else Got(Array(vs.value));
      case 7 =>
        var es := UnpackObject(s);
        r := if es.Threw? then Threw(es.error) else Got(Object(es.value));
      case _ => r := Threw(BadTag);
    }
  }

  method UnpackArray(s: Source) returns (r: Outcome<seq<Variant>>)
    requires s.Valid()
    modifies s
    ensures s.Valid() && Agrees(DecodeArray(old(s.Left())), r, s.Left())
    decreases s.buf.Length - s.pos, 1
  {
    var size := UnpackUnsigned(s);
    if size.Threw? {
      return Threw(size.error);
    }
    if size.value * SIZEOF_VARIANT >= MAX_ARRAY_ALLOC_SIZE {
      return Threw(TooLong);
    }
    ghost var all := DecodeAll(s.Left(), size.value);
    var vs: seq<Variant> := [];
    PrependNothing(all);
    for i := 0 to size.value
      invariant s.Valid() && |s.Left()| < |old(s.Left())|
      invariant Prepend(vs, DecodeAll(s.Left(), size.value - i)) == all
    {
      ghost var before := s.Left();
      ghost var element := Decode(before);
      var v := UnpackVariant(s);
      ElementsNext(vs, before, size.value - i, all, element, v, s.Left());
      if v.Threw? {
        return Threw(v.error);
      }
      vs := vs + [v.value];
    }
    ElementsDone(vs, s.Left());
    r := Got(vs);
  }

  /** The decoding of a whole array, from its first elements and the decoding of the others. */
  ghost function Prepend(vs: seq<Variant>, r: Result<seq<Variant>>): Result<seq<Variant>> {
    match r
    case Ok(more, rest) => Ok(vs + more, rest)
    case Fail(e) => Fail(e)
  }

  lemma PrependNothing(r: Result<seq<Variant>>)
    ensures Prepend([], r) == r
  {
    if r.Ok? {
      assert [] + r.value == r.value;
    }
  }

  lemma PrependNext(vs: seq<Variant>, bytes: Bytes, n: nat)
    requires n > 0
    ensures Prepend(vs, DecodeAll(bytes, n)) ==
      match Decode(bytes)
      case Ok(v, rest) => Prepend(vs + [v], DecodeAll(rest, n - 1))
      case Fail(e) => Fail(e)
  {
    match Decode(bytes)
    case Fail(_) =>
    case Ok(v, rest) =>
      var tail := DecodeAll(rest, n - 1);
      if tail.Ok? {
        assert vs + ([v] + tail.value) == vs + [v] + tail.value;
      }
  }

  /** What reading one of `n` elements leaves to be read. */
  lemma ElementsNext(vs: seq<Variant>, bytes: Bytes, n: nat, all: Result<seq<Variant>>,
          element: Result<Variant>, next: Outcome<Variant>, left: Bytes)
    requires n > 0 && Prepend(vs, DecodeAll(bytes, n)) == all && Decode(bytes) == element && Agrees(element, next, left)
    ensures if next.Threw? then all == Fail(next.error) else Prepend(vs + [next.value], DecodeAll(left, n - 1)) == all
    ensures |left| <= |bytes| || next.Threw?
  {
    PrependNext(vs, bytes, n);
  }

  lemma ElementsDone(vs: seq<Variant>, bytes: Bytes)
    ensures Prepend(vs, DecodeAll(bytes, 0)) == Ok(vs, bytes)
  {
    assert vs + [] == vs;
  }

  /** What reading one of `n` entries leaves to be read. */
  lemma EntriesNext(bytes: Bytes, n: nat, es: seq<Entry>, all: Result<seq<Entry>>,
          entry: Result<seq<Entry>>, next: Outcome<seq<Entry>>, left: Bytes)
    requires n > 0 && DecodeEntries(bytes, n, es) == all && DecodeEntry(bytes, es) == entry && Agrees(entry, next, left)
    ensures if next.Threw? then all == Fail(next.error) else DecodeEntries(left, n - 1, next.value) == all
    ensures |left| <= |bytes| || next.Threw?
  {
  }

  lemma EntriesDone(bytes: Bytes, es: seq<Entry>)
    ensures DecodeEntries(bytes, 0, es) == Ok(es, bytes)
  {
  }

  method UnpackObject(s: Source) returns (r: Outcome<seq<Entry>>)
    requires s.Valid()
    modifies s
    ensures s.Valid() && Agrees(DecodeObject(old(s.Left())), r, s.Left())
    decreases s.buf.Length - s.pos, 4
  {
    var size := UnpackUnsigned(s);
    if size.Threw? {
      return Threw(size.error);
    }
    r := UnpackEntries(s, size.value);
  }

  /** The loop of `UnpackObject`. */
  method UnpackEntries(s: Source, n: uint32) returns (r: Outcome<seq<Entry>>)
    requires s.Valid()
    modifies s
    ensures s.Valid() && Agrees(DecodeEntries(old(s.Left()), n, []), r, s.Left())
    decreases s.buf.Length - s.pos, 3
  {
    ghost var all := DecodeEntries(s.Left(), n, []);
    var es: seq<Entry> := [];
    for i := 0 to n
      invariant s.Valid() && |s.Left()| <= |old(s.Left())|
      invariant DecodeEntries(s.Left(), n - i, es) == all
    {
      var more := UnpackNext(s, n - i, es, all);
      if more.Threw? {
        return more;
      }
      es := more.value;
    }
    EntriesDone(s.Left(), es);
    r := Got(es);
  }

  /** One turn of that loop, with `n` entries to read. */
  method UnpackNext(s: Source, ghost n: nat, es: seq<Entry>, ghost all: Result<seq<Entry>>)
    returns (r: Outcome<seq<Entry>>)
    requires s.Valid() && n > 0 && DecodeEntries(s.Left(), n, es) == all
    modifies s
    ensures s.Valid() && (r.Got? ==> |s.Left()| <= |old(s.Left())|)
    ensures if r.Threw? then all == Fail(r.error) else DecodeEntries(s.Left(), n - 1, r.value) == all
    decreases s.buf.Length - s.pos, 2
  {
    ghost var before := s.Left();
    ghost var entry := DecodeEntry(before, es);
    r := UnpackEntry(s, es);
    EntriesNext(before, n, es, all, entry, r, s.Left());
  }

  /** One entry. */
  method UnpackEntry(s: Source, es: seq<Entry>) returns (r: Outcome<seq<Entry>>)
    requires s.Valid()
    modifies s
    ensures s.Valid() && Agrees(DecodeEntry(old(s.Left()), es), r, s.Left())
    decreases s.buf.Length - s.pos, 1
  {
    var key := UnpackString(s);
    if key.Threw? {
      return Threw(key.error);
    }
    var value := UnpackVariant(s);
    if value.Threw? {
      return Threw(value.error);
    }
    r := Got(SetEntry(es, key.value, value.value));
  }

  /** Unpacks a whole buffer into a fresh variant. An empty buffer leaves it null; bytes
      after the value are ignored. What `Pack` wrote comes back. */
  method Unpack(bytes: array<Octet>) returns (r: Outcome<Variant>)
    ensures bytes.Length == 0 ==> r == Got(Null)
    ensures bytes.Length > 0 ==> r.Got? == Decode(bytes[..]).Ok?
    ensures bytes.Length > 0 && r.Got? ==> r.value == Decode(bytes[..]).value
    ensures forall v | WellFormed(v) && bytes[..] == Encode(v) :: r == Got(v)
  {
    r := Got(Null);
    if bytes.Length > 0 {
      var s := new Source(bytes);
      assert s.Left() == bytes[..];
      r := UnpackVariant(s);
    }
    forall v | WellFormed(v) && bytes[..] == Encode(v) ensures r == Got(v) {
      assert |Encode(v)| > 0;
      VariantLaws.RoundTrip(v, []);
      assert Encode(v) + [] == Encode(v);
    }
  }
}
