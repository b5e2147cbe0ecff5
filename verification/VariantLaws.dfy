/** The laws of the variant encoding: round trip, its exact domain, and unique parsing. */
module VariantLaws {
  import opened RawTypes
  import Varint
  import opened VariantCodec

  /** Decoding what was packed, with anything after it, gives the variant and leaves the rest. */
  lemma {:induction false} RoundTrip(v: Variant, rest: Bytes)
    requires WellFormed(v)
    ensures Decode(Encode(v) + rest) == Ok(v, rest)
    decreases v, 1
  {
    match v
    case Array(vs) =>
      RoundTripAll(vs, rest, EncodeAll(vs) + rest);
      ArrayRoundTrip(vs, rest);
    case Object(es) =>
      RoundTripEntries(es, rest, [], EncodeEntries(es) + rest);
      assert [] + es == es;
      ObjectRoundTrip(es, rest);
    case _ =>
      ScalarRoundTrip(v, rest);
  }

  lemma ArrayRoundTrip(vs: seq<Variant>, rest: Bytes)
    requires |vs| * SIZEOF_VARIANT < MAX_ARRAY_ALLOC_SIZE
    requires DecodeAll(EncodeAll(vs) + rest, |vs|) == Ok(vs, rest)
    ensures Decode(Encode(Array(vs)) + rest) == Ok(Array(vs), rest)
  {
    var head, tail := Varint.Encode(|vs|), EncodeAll(vs) + rest;
    Varint.RoundTrip(|vs|, tail);
    ArrayFrom(head + tail, |vs|, tail, Ok(vs, rest));
    TaggedArray(head + tail, vs, rest);
    ArrayBytes(vs, rest);
  }

  lemma ArrayBytes(vs: seq<Variant>, rest: Bytes)
    requires |vs| < 0x1_0000_0000
    ensures Encode(Array(vs)) + rest == [6] + (Varint.Encode(|vs|) + (EncodeAll(vs) + rest))
  {
    CountIsExact(|vs|);
    Regroup(6, Varint.Encode(|vs|), EncodeAll(vs), rest);
  }

  lemma Regroup(tag: Octet, head: Bytes, body: Bytes, rest: Bytes)
    ensures [tag] + (head + body) + rest == [tag] + (head + (body + rest))
  {
  }

  lemma ArrayFrom(bytes: Bytes, n: uint32, tail: Bytes, r: Result<seq<Variant>>)
    requires n * SIZEOF_VARIANT < MAX_ARRAY_ALLOC_SIZE
    requires Varint.Decode(bytes) == Ok(n, tail) && DecodeAll(tail, n) == r
    ensures DecodeArray(bytes) == r
  {
  }

  lemma TaggedArray(bytes: Bytes, vs: seq<Variant>, rest: Bytes)
    requires DecodeArray(bytes) == Ok(vs, rest)
    ensures Decode([6] + bytes) == Ok(Array(vs), rest)
  {
    assert ([6] + bytes)[1..] == bytes;
  }

  lemma ObjectRoundTrip(es: seq<Entry>, rest: Bytes)
    requires |es| < 0x1_0000_0000
    requires DecodeEntries(EncodeEntries(es) + rest, |es|, []) == Ok(es, rest)
    ensures Decode(Encode(Object(es)) + rest) == Ok(Object(es), rest)
  {
    var head, tail := Varint.Encode(|es|), EncodeEntries(es) + rest;
    Varint.RoundTrip(|es|, tail);
    ObjectFrom(head + tail, |es|, tail, Ok(es, rest));
    TaggedObject(head + tail, es, rest);
    ObjectBytes(es, rest);
  }

  lemma ObjectBytes(es: seq<Entry>, rest: Bytes)
    requires |es| < 0x1_0000_0000
    ensures Encode(Object(es)) + rest == [7] + (Varint.Encode(|es|) + (EncodeEntries(es) + rest))
  {
    CountIsExact(|es|);
    Regroup(7, Varint.Encode(|es|), EncodeEntries(es), rest);
  }

  lemma TaggedObject(bytes: Bytes, es: seq<Entry>, rest: Bytes)
    requires DecodeObject(bytes) == Ok(es, rest)
    ensures Decode([7] + bytes) == Ok(Object(es), rest)
  {
    assert ([7] + bytes)[1..] == bytes;
  }

  lemma ObjectFrom(bytes: Bytes, n: uint32, tail: Bytes, r: Result<seq<Entry>>)
    requires Varint.Decode(bytes) == Ok(n, tail) && DecodeEntries(tail, n, []) == r
    ensures DecodeObject(bytes) == r
  {
  }

  lemma TagFirst(tag: Octet, body: Bytes, rest: Bytes)
    ensures var bytes := [tag] + body + rest;
            bytes[0] == tag && bytes[1..] == body + rest
  {
  }

  lemma ScalarRoundTrip(v: Variant, rest: Bytes)
    requires WellFormed(v) && !v.Array? && !v.Object?
    ensures Decode(Encode(v) + rest) == Ok(v, rest)
  {
    match v
    case Null =>
    case Int64(i) =>
      TagFirst(1, EncodeUInt64(Unsigned(i)), rest);
      UInt64RoundTrip(Unsigned(i), rest);
    case UInt64(u) =>
      TagFirst(2, EncodeUInt64(u), rest);
      UInt64RoundTrip(u, rest);
    case Double(image) =>
      TagFirst(3, image, rest);
    case Bool(b) =>
      TagFirst(4, EncodeBool(b), rest);
    case String(s) =>
      TagFirst(5, EncodeString(s), rest);
      StringRoundTrip(s, rest);
  }

  lemma {:induction false} RoundTripAll(vs: seq<Variant>, rest: Bytes, bytes: Bytes)
    requires AllWellFormed(vs) && bytes == EncodeAll(vs) + rest
    ensures DecodeAll(bytes, |vs|) == Ok(vs, rest)
    decreases vs, 0
  {
    if vs == [] {
      assert bytes == rest;
    } else {
      var tail := EncodeAll(vs[1..]) + rest;
      assert bytes == Encode(vs[0]) + tail;
      RoundTrip(vs[0], tail);
      RoundTripAll(vs[1..], rest, tail);
      NextElement(bytes, |vs|, vs[0], tail);
      assert vs == [vs[0]] + vs[1..];
    }
  }

  lemma NextElement(bytes: Bytes, n: nat, v: Variant, rest: Bytes)
    requires n > 0 && Decode(bytes) == Ok(v, rest) && DecodeAll(rest, n - 1).Ok?
    ensures var r := DecodeAll(rest, n - 1);
            DecodeAll(bytes, n) == Ok([v] + r.value, r.rest)
  {
  }

  lemma {:induction false} RoundTripEntries(es: seq<Entry>, rest: Bytes, sofar: seq<Entry>, bytes: Bytes)
    requires EntriesWellFormed(es) && DistinctKeys(sofar + es) && bytes == EncodeEntries(es) + rest
    ensures DecodeEntries(bytes, |es|, sofar) == Ok(sofar + es, rest)
    decreases es, 0
  {
    if es == [] {
      assert bytes == rest && sofar + es == sofar;
    } else {
      var e := es[0];
      var tail := EncodeEntries(es[1..]) + rest;
      assert bytes == EncodeString(e.key) + (Encode(e.value) + tail);
      StringRoundTrip(e.key, Encode(e.value) + tail);
      RoundTrip(e.value, tail);
      assert DecodeEntry(bytes, sofar) == Ok(SetEntry(sofar, e.key, e.value), tail);
      FirstIsNew(sofar, es);
      SetNew(sofar, e.key, e.value);
      RoundTripEntries(es[1..], rest, sofar + [e], tail);
    }
  }

  lemma {:induction false} SetNew(es: seq<Entry>, key: Bytes, value: Variant)
    requires Absent(es, key)
    ensures SetEntry(es, key, value) == es + [Entry(key, value)]
  {
    if es != [] {
      SetNew(es[1..], key, value);
    }
  }

  lemma FirstIsNew(sofar: seq<Entry>, es: seq<Entry>)
    requires es != [] && DistinctKeys(sofar + es)
    ensures Absent(sofar, es[0].key)
    ensures sofar + [es[0]] + es[1..] == sofar + es
  {
    forall i | 0 <= i < |sofar| ensures sofar[i].key != es[0].key {
      assert (sofar + es)[i].key != (sofar + es)[|sofar|].key;
    }
  }

  /** The round trip holds of exactly the well-formed variants. */
  lemma RoundTripExactly(v: Variant, rest: Bytes)
    ensures Decode(Encode(v) + rest) == Ok(v, rest) <==> WellFormed(v)
  {
    if WellFormed(v) {
      RoundTrip(v, rest);
    }
  }

  //  Unique parsing

  /** No encoding is a prefix of another, so packing is injective and hashes of it are of one value. */
  lemma PrefixFree(a: Variant, b: Variant)
    requires WellFormed(a) && WellFormed(b) && Encode(a) <= Encode(b)
    ensures a == b
  {
    var rest := Encode(b)[|Encode(a)|..];
    assert Encode(a) + rest == Encode(b) + [];
    RoundTrip(a, rest);
    RoundTrip(b, []);
  }

  /** Concatenated encodings fall apart into their variants in one way only. */
  lemma {:induction false} UniqueParse(a: seq<Variant>, b: seq<Variant>)
    requires AllWellFormed(a) && AllWellFormed(b) && EncodeAll(a) == EncodeAll(b)
    ensures a == b
  {
    if a != [] && b != [] {
      var s, t := EncodeAll(a[1..]), EncodeAll(b[1..]);
      RoundTrip(a[0], s);
      RoundTrip(b[0], t);
      UniqueParse(a[1..], b[1..]);
      assert a == [a[0]] + a[1..] && b == [b[0]] + b[1..];
    }
  }
}
