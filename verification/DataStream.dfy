/**
 The two-mode `datastream`: a counting stream that only adds up lengths, a writing
 stream over a fixed buffer, and the bounds-checked reading stream.
 */
module DataStream {
  import opened RawTypes
  import opened Varint
  import Words

  /** How a write ended; `Overrun` is a copy that the size check let past the end of the buffer. */
  datatype Status = Done | RangeError | Overrun

  /** Either stream that packing is instantiated with. */
  class Sink {
    const counting: bool
    const buf: array<Octet>
    var size: nat
    var pos: nat
    /** The bytes accepted so far. */
    ghost var out: Bytes

    ghost predicate Valid()
      reads this, buf
    {
      if counting then size == |out| else pos == |out| <= buf.Length && buf[..pos] == out
    }

    /** Whether `n` more bytes can be accepted. */
    ghost predicate Fits(n: nat)
      reads this
    {
      counting || |out| + n <= buf.Length
    }

    constructor Counting()
      ensures Valid() && counting && out == [] && fresh(buf)
    {
      counting, buf, size, pos, out := true, new Octet[0], 0, 0, [];
    }

    constructor Writing(buffer: array<Octet>)
      ensures Valid() && !counting && buf == buffer && out == []
    {
      counting, buf, size, pos, out := false, buffer, 0, 0, [];
    }

    method Write(d: Bytes) returns (st: Status)
      requires Valid()
      modifies this, buf
      ensures Valid()
      ensures st == Done <==> old(Fits(|d|))
      ensures out == if st == Done then old(out) + d else old(out)
      ensures st == Overrun <==> !counting && ToInt32(|d|) <= buf.Length - |old(out)| < |d|
    {
      if counting {
        size := size + |d|;
        out := out + d;
        return Done;
      }
      if buf.Length - pos >= ToInt32(|d|) {
        if |d| > buf.Length - pos {
          return Overrun;
        }
        ghost var before := buf[..pos];
        for i := 0 to |d|
          modifies buf
          invariant buf[..pos] == before && buf[pos..pos + i] == d[..i]
        {
          buf[pos + i] := d[i];
        }
        assert d[..|d|] == d;
        assert buf[..pos + |d|] == buf[..pos] + buf[pos..pos + |d|];
        pos := pos + |d|;
        out := out + d;
        return Done;
      }
      return RangeError;
    }

    method Tellp() returns (n: nat)
      requires Valid()
      ensures n == |out|
    {
      n := if counting then size else pos;
    }
  }

  /** Two gigabytes written to a full buffer: the length reads as negative, so the guard
      lets them through. */
  method OverrunExample(s: Sink, d: Bytes) returns (st: Status)
    requires s.Valid() && !s.counting && |s.out| == s.buf.Length && |d| == 0x8000_0000
    modifies s, s.buf
    ensures st == Overrun
  {
    st := s.Write(d);
  }

  datatype Outcome<+T> = Got(value: T) | Threw(error: Error)

  /** `datastream<const char*>`, the stream that unpacking reads. */
  class Source {
    const buf: array<Octet>
    var pos: nat

    ghost predicate Valid()
      reads this
    {
      pos <= buf.Length
    }

    ghost function Left(): Bytes
      requires Valid()
      reads this, buf
    {
      buf[pos..]
    }

    constructor (buffer: array<Octet>)
      ensures Valid() && buf == buffer && pos == 0
    {
      buf, pos := buffer, 0;
    }

    method Get() returns (r: Outcome<Octet>)
      requires Valid()
      modifies this
      ensures Valid()
      ensures if old(Left()) == [] then r == Threw(OutOfRange) && Left() == old(Left())
              else r == Got(old(Left())[0]) && Left() == old(Left())[1..]
    {
      if pos < buf.Length {
        r := Got(buf[pos]);
        pos := pos + 1;
      } else {
        r := Threw(OutOfRange);
      }
    }

    method Read(n: nat) returns (r: Outcome<Bytes>)
      requires Valid()
      modifies this
      ensures Valid()
      ensures if |old(Left())| < n then r == Threw(OutOfRange) && Left() == old(Left())
              else r == Got(old(Left())[..n]) && Left() == old(Left())[n..]
    {
      if buf.Length - pos >= n {
        assert buf[pos..pos + n] == Left()[..n];
        r := Got(buf[pos..pos + n]);
        pos := pos + n;
      } else {
        r := Threw(OutOfRange);
      }
    }
  }

  /** `r` and what is left of the stream are what the decoding `d` of the stream before says. */
  ghost predicate Agrees<T>(d: Result<T>, r: Outcome<T>, left: Bytes) {
    match d
    case Ok(value, rest) => r == Got(value) && left == rest
    case Fail(e) => r == Threw(e)
  }

  method PackUnsigned(s: Sink, n: uint32) returns (st: Status)
    requires s.Valid()
    modifies s, s.buf
    ensures s.Valid()
    ensures st == Done <==> old(s.Fits(|Encode(n)|))
    ensures st == Done ==> s.out == old(s.out) + Encode(n)
    ensures st != Overrun
  {
    var val: nat, more := n, true;
    ghost var rest := Encode(n);
    ghost var total := s.out + rest;
    while more
      invariant s.Valid() && s.out + rest == total
      invariant if more then rest == Encode(val) else rest == []
      decreases |rest|
    {
      EncodeNext(val);
      assert s.out + rest == s.out + [rest[0]] + rest[1..];
      var b := val % 128;
      val := val / 128;
      b := Marked(b, val > 0);
      st := s.Write([b]);
      if st != Done {
        return;
      }
      more := val > 0;
      rest := rest[1..];
    }
    st := Done;
  }

  lemma EncodeNext(n: nat)
    ensures Encode(n)[0] == Marked(n % 128, n / 128 > 0)
    ensures Encode(n)[1..] == if n / 128 > 0 then Encode(n / 128) else []
  {
  }

  /** `b | (more << 7)` */
  function Marked(b: nat, more: bool): (r: Octet)
    requires b < 128
    ensures r == if more then 128 + b else b
  {
    assert Words.Pow2(7) == 128;
    Words.OrDisjoint(b, 1, 7);
    Words.OrDisjoint(b, 0, 7);
    Words.OrNat(b, if more then 128 else 0)
  }

  method UnpackUnsigned(s: Source) returns (r: Outcome<uint32>)
    requires s.Valid()
    modifies s
    ensures s.Valid() && Agrees(Decode(old(s.Left())), r, s.Left())
  {
    var v: nat, shift: nat := 0, 0;
    ghost var k := 0;
    while true
      invariant s.Valid() && shift == 7 * k && k <= 5 && (k < 5 ==> v < Shifted(1, k))
      invariant DecodeFrom(s.Left(), k, v) == Decode(old(s.Left()))
      decreases |s.Left()|
    {
      var c := s.Get();
      if c.Threw? {
        return c;
      }
      if shift >= 32 {
        return Threw(Overlong);
      }
      OrInDigit(v, c.value, k);
      DigitBound(v, c.value, k);
      v := Words.OrNat(v, ShiftLeft(c.value % 128, shift));
      shift := shift + 7;
      k := k + 1;
      if c.value < 128 {
        return Got(v % 0x1_0000_0000);
      }
    }
  }

  /** `uint32_t(x) << shift` for the shifts that are defined. */
  function ShiftLeft(x: nat, shift: nat): uint32
    requires shift < 32
  {
    (x * Words.Pow2(shift)) % 0x1_0000_0000
  }

  lemma DigitBound(v: nat, b: Octet, k: nat)
    requires k < 5 && v < Shifted(1, k)
    ensures ShiftLeft(b % 128, 7 * k) == Digit(b, k)
    ensures k < 4 ==> v + Digit(b, k) < Shifted(1, k + 1)
  {
    ShiftedIsProduct(b % 128, k);
    assert k < 4 ==> Shifted(b % 128, k) < 0x1_0000_0000;
  }

  /** Signed values are folded to unsigned ones first. */
  method PackSigned(s: Sink, v: int32) returns (st: Status)
    requires s.Valid()
    modifies s, s.buf
    ensures s.Valid()
    ensures st == Done <==> old(s.Fits(|EncodeSigned(v)|))
    ensures st == Done ==> s.out == old(s.out) + EncodeSigned(v)
    ensures st != Overrun
  {
    st := PackUnsigned(s, ZigZag(v));
  }

  method UnpackSigned(s: Source) returns (r: Outcome<int32>)
    requires s.Valid()
    modifies s
    ensures s.Valid() && Agrees(DecodeSigned(old(s.Left())), r, s.Left())
  {
    var u := UnpackUnsigned(s);
    r := if u.Got? then Got(UnZigZag(u.value)) else Threw(u.error);
  }
}
