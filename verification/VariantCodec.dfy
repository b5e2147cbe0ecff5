/**
 The raw encoding of `variant` trees as functions on byte sequences: what packing
 writes, what unpacking reads, and the laws between the two.
 */
module VariantCodec {
  import opened RawTypes
  import Varint

  /** The memory image of a `double`. */
  type Image = b: Bytes | |b| == 8 witness [0, 0, 0, 0, 0, 0, 0, 0]

  datatype Variant =
    | Null
    | Int64(i: int64)
    | UInt64(u: uint64)
    | Double(image: Image)
    | Bool(b: bool)
    | String(chars: Bytes)
    | Array(elems: seq<Variant>)
    | Object(entries: seq<Entry>)

  datatype Entry = Entry(key: Bytes, value: Variant)

  const MAX_ARRAY_ALLOC_SIZE := 1024 * 1024 * 10
  const SIZEOF_VARIANT := 16

  //  Fixed-width integers

  function LittleEndian(n: nat, k: nat): (b: Bytes)
    ensures |b| == k
  {
    if k == 0 then [] else [n % 256] + LittleEndian(n / 256, k - 1)
  }

  function FromLittleEndian(b: Bytes): nat {
    if b == [] then 0 else b[0] + 256 * FromLittleEndian(b[1..])
  }

  function Pow256(k: nat): (p: nat)
    ensures p >= 1
  {
    if k == 0 then 1 else 256 * Pow256(k - 1)
  }

  lemma {:induction false} LittleEndianRoundTrip(n: nat, k: nat)
    requires n < Pow256(k)
    ensures FromLittleEndian(LittleEndian(n, k)) == n
  {
    if k != 0 {
      LittleEndianRoundTrip(n / 256, k - 1);
    }
  }

  lemma {:induction false} FromLittleEndianBound(b: Bytes)
    ensures FromLittleEndian(b) < Pow256(|b|)
  {
    if b != [] {
      FromLittleEndianBound(b[1..]);
    }
  }

  function EncodeUInt64(n: uint64): Bytes {
    LittleEndian(n, 8)
  }

  function DecodeUInt64(bytes: Bytes): (r: Result<uint64>)
    ensures r.Ok? ==> |bytes| >= 8 && r.rest == bytes[8..]
  {
    if |bytes| < 8 then Fail(OutOfRange)
    else
      FromLittleEndianBound(bytes[..8]);
      assert Pow256(8) == 0x1_0000_0000_0000_0000;
      Ok(FromLittleEndian(bytes[..8]), bytes[8..])
  }

  lemma UInt64RoundTrip(n: uint64, rest: Bytes)
    ensures DecodeUInt64(EncodeUInt64(n) + rest) == Ok(n, rest)
  {
    assert Pow256(8) == 0x1_0000_0000_0000_0000;
    LittleEndianRoundTrip(n, 8);
    var bytes := EncodeUInt64(n) + rest;
    assert bytes[..8] == EncodeUInt64(n) && bytes[8..] == rest;
  }

  /** The two's complement image of a signed value. */
  function Unsigned(i: int64): uint64 {
    if i < 0 then i + 0x1_0000_0000_0000_0000 else i
  }

  function Signed(u: uint64): int64 {
    if u < 0x8000_0000_0000_0000 then u else u - 0x1_0000_0000_0000_0000
  }

  function DecodeImage(bytes: Bytes): (r: Result<Image>)
    ensures r.Ok? ==> |bytes| >= 8 && r.rest == bytes[8..]
  {
    if |bytes| < 8 then Fail(OutOfRange) else Ok(bytes[..8], bytes[8..])
  }

  function EncodeBool(b: bool): Bytes {
    [if b then 1 else 0]
  }

  function DecodeBool(bytes: Bytes): (r: Result<bool>)
    ensures r.Ok? ==> |bytes| >= 1 && r.rest == bytes[1..]
  {
    if bytes == [] then Fail(OutOfRange)
    else if bytes[0] > 1 then Fail(BadBool)
    else Ok(bytes[0] == 1, bytes[1..])
  }

  //  Lengths

  /** A length as it is written: cast to 32 bits. */
  function Count(n: nat): uint32 {
    n % 0x1_0000_0000
  }

  lemma CountIsExact(n: nat)
    requires n < 0x1_0000_0000
    ensures Count(n) == n
  {
  }

  //  Strings

  function EncodeString(s: Bytes): Bytes {
    Varint.Encode(Count(|s|)) + s
  }

  function DecodeString(bytes: Bytes): (r: Result<Bytes>)
    ensures r.Ok? ==> |r.rest| < |bytes|
    ensures r.Ok? ==> |r.value| < MAX_ARRAY_ALLOC_SIZE
  {
    match Varint.Decode(bytes)
    case Fail(e) => Fail(e)
    case Ok(n, rest) =>
      if n >= MAX_ARRAY_ALLOC_SIZE then Fail(TooLong)
      else if |rest| < n then Fail(OutOfRange)
      else Ok(rest[..n], rest[n..])
  }

  lemma StringRoundTrip(s: Bytes, rest: Bytes)
    requires |s| < MAX_ARRAY_ALLOC_SIZE
    ensures DecodeString(EncodeString(s) + rest) == Ok(s, rest)
  {
    CountIsExact(|s|);
    var head := Varint.Encode(|s|);
    assert EncodeString(s) + rest == head + (s + rest);
    Varint.RoundTrip(|s|, s + rest);
    assert (s + rest)[..|s|] == s && (s + rest)[|s|..] == rest;
  }

  //  Objects

  /** Whether `key` is not among the keys of `es`. */
  predicate Absent(es: seq<Entry>, key: Bytes) {
    forall i :: 0 <= i < |es| ==> es[i].key != key
  }

  predicate DistinctKeys(es: seq<Entry>) {
    forall i, j :: 0 <= i < j < |es| ==> es[i].key != es[j].key
  }

  /** Replaces the value at `key`, or appends the pair if the key is new. */
  function SetEntry(es: seq<Entry>, key: Bytes, value: Variant): (r: seq<Entry>)
    ensures |r| <= |es| + 1
  {
    if es == [] then [Entry(key, value)]
    else if es[0].key == key then [Entry(key, value)] + es[1..]
    else [es[0]] + SetEntry(es[1..], key, value)
  }

  //  Variants

  function TypeId(v: Variant): Octet {
    match v
    case Null => 0
    case Int64(_) => 1
    case UInt64(_) => 2
    case Double(_) => 3
    case Bool(_) => 4
    case String(_) => 5
    case Array(_) => 6
    case Object(_) => 7
  }

  function Encode(v: Variant): (bytes: Bytes)
    ensures |bytes| >= 1
    decreases v, 2
  {
    [TypeId(v)] + EncodeBody(v)
  }

  function EncodeBody(v: Variant): Bytes
    decreases v, 1
  {
    match v
    case Null => []
    case Int64(i) => EncodeUInt64(Unsigned(i))
    case UInt64(u) => EncodeUInt64(u)
    case Double(image) => image
    case Bool(b) => EncodeBool(b)
    case String(s) => EncodeString(s)
    case Array(vs) => Varint.Encode(Count(|vs|)) + EncodeAll(vs)
    case Object(es) => Varint.Encode(Count(|es|)) + EncodeEntries(es)
  }

  function EncodeAll(vs: seq<Variant>): Bytes
    decreases vs, 0
  {
    if vs == [] then [] else Encode(vs[0]) + EncodeAll(vs[1..])
  }

  function EncodeEntries(es: seq<Entry>): Bytes
    decreases es, 0
  {
    if es == [] then [] else EncodeString(es[0].key) + Encode(es[0].value) + EncodeEntries(es[1..])
  }

  function Decode(bytes: Bytes): (r: Result<Variant>)
    ensures r.Ok? ==> |r.rest| < |bytes|
    ensures r.Ok? ==> WellFormed(r.value)
    decreases |bytes|, 0
  {
    if bytes == [] then Fail(OutOfRange) else
    var body := bytes[1..];
    match bytes[0]
    case 0 => Ok(Null, body)
    case 1 => (match DecodeUInt64(body) case Fail(e) => Fail(e) case Ok(u, rest) => Ok(Int64(Signed(u)), rest))
    case 2 => (match DecodeUInt64(body) case Fail(e) => Fail(e) case Ok(u, rest) => Ok(UInt64(u), rest))
    case 3 => (match DecodeImage(body) case Fail(e) => Fail(e) case Ok(d, rest) => Ok(Double(d), rest))
    case 4 => (match DecodeBool(body) case Fail(e) => Fail(e) case Ok(b, rest) => Ok(Bool(b), rest))
    case 5 => (match DecodeString(body) case Fail(e) => Fail(e) case Ok(s, rest) => Ok(String(s), rest))
    case 6 => (match DecodeArray(body) case Fail(e) => Fail(e) case Ok(vs, rest) => Ok(Array(vs), rest))
    case 7 => (match DecodeObject(body) case Fail(e) => Fail(e) case Ok(es, rest) => Ok(Object(es), rest))
    case _ => Fail(BadTag)
  }

  function DecodeArray(bytes: Bytes): (r: Result<seq<Variant>>)
    ensures r.Ok? ==> |r.rest| < |bytes|
    ensures r.Ok? ==> |r.value| * SIZEOF_VARIANT < MAX_ARRAY_ALLOC_SIZE
    ensures r.Ok? ==> AllWellFormed(r.value)
    decreases |bytes|, 2
  {
    match Varint.Decode(bytes)
    case Fail(e) => Fail(e)
    case Ok(n, rest) =>
      if n * SIZEOF_VARIANT >= MAX_ARRAY_ALLOC_SIZE then Fail(TooLong) else DecodeAll(rest, n)
  }

  function DecodeAll(bytes: Bytes, n: nat): (r: Result<seq<Variant>>)
    ensures r.Ok? ==> |r.rest| <= |bytes| && |r.value| == n
    ensures r.Ok? ==> AllWellFormed(r.value)
    decreases |bytes|, 1
  {
    if n == 0 then Ok([], bytes)
    else match Decode(bytes)
      case Fail(e) => Fail(e)
      case Ok(v, rest) =>
        match DecodeAll(rest, n - 1)
        case Fail(e) => Fail(e)
        case Ok(vs, rest') => Ok([v] + vs, rest')
  }

  function DecodeObject(bytes: Bytes): (r: Result<seq<Entry>>)
    ensures r.Ok? ==> |r.rest| < |bytes|
    ensures r.Ok? ==> |r.value| < 0x1_0000_0000
    ensures r.Ok? ==> GoodEntries(r.value)
    decreases |bytes|, 3
  {
    match Varint.Decode(bytes)
    case Fail(e) => Fail(e)
    case Ok(n, rest) => DecodeEntries(rest, n, [])
  }

  function DecodeEntries(bytes: Bytes, n: nat, sofar: seq<Entry>): (r: Result<seq<Entry>>)
    ensures r.Ok? ==> |r.rest| <= |bytes| && |r.value| <= |sofar| + n
    ensures r.Ok? && GoodEntries(sofar) ==> GoodEntries(r.value)
    decreases |bytes|, 2
  {
    if n == 0 then Ok(sofar, bytes)
    else match DecodeEntry(bytes, sofar)
      case Fail(e) => Fail(e)
      case Ok(more, rest) => DecodeEntries(rest, n - 1, more)
  }

  /** Reads one pair and sets it among the entries read so far. */
  function DecodeEntry(bytes: Bytes, sofar: seq<Entry>): (r: Result<seq<Entry>>)
    ensures r.Ok? ==> |r.rest| < |bytes| && |r.value| <= |sofar| + 1
    ensures r.Ok? && GoodEntries(sofar) ==> GoodEntries(r.value)
    decreases |bytes|, 1
  {
    match DecodeString(bytes)
    case Fail(e) => Fail(e)
    case Ok(key, rest) =>
      match Decode(rest)
      case Fail(e) => Fail(e)
      case Ok(value, rest') =>
        assert GoodEntries(sofar) ==> GoodEntries(SetEntry(sofar, key, value)) by {
          if GoodEntries(sofar) { SetKeepsGood(sofar, key, value); }
        }
        Ok(SetEntry(sofar, key, value), rest')
  }

  //  The domain of the encoding

  /** Lengths within the decoder's limits and no key twice, all the way down. */
  predicate WellFormed(v: Variant)
    decreases v, 1
  {
    match v
    case String(s) => |s| < MAX_ARRAY_ALLOC_SIZE
    case Array(vs) => |vs| * SIZEOF_VARIANT < MAX_ARRAY_ALLOC_SIZE && AllWellFormed(vs)
    case Object(es) => |es| < 0x1_0000_0000 && GoodEntries(es)
    case _ => true
  }

  predicate AllWellFormed(vs: seq<Variant>)
    decreases vs, 0
  {
    forall i :: 0 <= i < |vs| ==> WellFormed(vs[i])
  }

  predicate EntriesWellFormed(es: seq<Entry>)
    decreases es, 0
  {
    forall i :: 0 <= i < |es| ==> |es[i].key| < MAX_ARRAY_ALLOC_SIZE && WellFormed(es[i].value)
  }

  /** What the decoder builds from entries: distinct keys, and parts within the limits. */
  predicate GoodEntries(es: seq<Entry>)
    decreases es, 1
  {
    DistinctKeys(es) && EntriesWellFormed(es)
  }

  lemma {:induction false} SetKeepsGood(es: seq<Entry>, key: Bytes, value: Variant)
    requires GoodEntries(es) && |key| < MAX_ARRAY_ALLOC_SIZE && WellFormed(value)
    ensures GoodEntries(SetEntry(es, key, value))
  {
    if es != [] && es[0].key != key {
      var tail := SetEntry(es[1..], key, value);
      SetKeepsGood(es[1..], key, value);
      SetKeys(es[1..], key, value);
      assert Absent(es[1..], es[0].key);
      ConsDistinct(es[0], tail);
    }
  }

  lemma ConsDistinct(e: Entry, es: seq<Entry>)
    requires DistinctKeys(es) && Absent(es, e.key)
    ensures DistinctKeys([e] + es)
  {
  }

  /** Setting a key adds no other key. */
  lemma {:induction false} SetKeys(es: seq<Entry>, key: Bytes, value: Variant)
    ensures forall k :: Absent(es, k) && k != key ==> Absent(SetEntry(es, key, value), k)
  {
    if es != [] {
      SetKeys(es[1..], key, value);
      forall k | Absent(es, k) && k != key ensures Absent(SetEntry(es, key, value), k) {
        assert es[0].key != k;
        assert Absent(es[1..], k);
      }
    }
  }
}
