/**
 The bytes of packed variants, one by one, and what an unpacked object has at each of
 its keys.
 */
module VariantBytes {
  import opened Basics
  import opened RawTypes
  import opened Words
  import Varint
  import opened VariantCodec
  import opened VariantLaws

  //  Numbers

  /** Seven bits of the number in every byte; with the marks these are all its bytes. */
  lemma {:induction false} VarintDigits(n: nat, i: nat)
    requires i < |Varint.Encode(n)|
    ensures Varint.Encode(n)[i] % 128 == n / Pow2(7 * i) % 128
    decreases i
  {
    if n >= 128 {
      var tail := Varint.Encode(n / 128);
      assert Varint.Encode(n) == [128 + n % 128] + tail;
      if i == 0 {
        Varint.LowSeven(n);
      } else {
        VarintDigits(n / 128, i - 1);
        Varint.SevenMore(i - 1);
        NestedDivision(n, 128, Pow2(7 * (i - 1)));
      }
    }
  }

  lemma VarintExamples()
    ensures Varint.Encode(0) == [0] && Varint.Encode(127) == [127] && Varint.Encode(128) == [128, 1]
    ensures Varint.Encode(300) == [172, 2] && Varint.Encode(0xFFFF_FFFF) == [255, 255, 255, 255, 15]
  {
  }

  lemma {:induction false} LittleEndianDigits(n: nat, width: nat, k: nat)
    requires k < width
    ensures LittleEndian(n, width)[k] == n / Pow256(k) % 256
  {
    if k > 0 {
      LittleEndianDigits(n / 256, width - 1, k - 1);
      NestedDivision(n, 256, Pow256(k - 1));
    }
  }

  /** Byte `1 + k` of a packed integer is the digit of weight 256^k of its residue modulo 2^64. */
  lemma IntegerByte(v: Variant, value: int, k: nat)
    requires (v.Int64? && v.i == value) || (v.UInt64? && v.u == value)
    requires k < 8
    ensures |Encode(v)| == 9
    ensures Encode(v)[1 + k] == value % 0x1_0000_0000_0000_0000 / Pow256(k) % 256
  {
    var u := value % 0x1_0000_0000_0000_0000;
    IntegerBody(v, value, u);
    LittleEndianDigits(u, 8, k);
  }

  lemma IntegerBody(v: Variant, value: int, u: uint64)
    requires (v.Int64? && v.i == value) || (v.UInt64? && v.u == value)
    requires u == value % 0x1_0000_0000_0000_0000
    ensures Encode(v) == [Encode(v)[0]] + LittleEndian(u, 8)
  {
    assert u == if v.Int64? then Unsigned(v.i) else v.u;
  }

  /** Written out: a packed integer is its number as a kind and eight bytes, lowest first. */
  lemma IntegerBytes(v: Variant, value: int, u: uint64)
    requires (v.Int64? && v.i == value) || (v.UInt64? && v.u == value)
    requires u == value % 0x1_0000_0000_0000_0000
    ensures
      Encode(v) ==
        [if v.Int64? then 1 else 2,
         u % 0x100, u / 0x100 % 0x100, u / 0x1_0000 % 0x100, u / 0x100_0000 % 0x100,
         u / 0x1_0000_0000 % 0x100, u / 0x100_0000_0000 % 0x100,
         u / 0x1_0000_0000_0000 % 0x100, u / 0x100_0000_0000_0000]
  {
    var w := [1, 0x100, 0x1_0000, 0x100_0000, 0x1_0000_0000, 0x100_0000_0000,
              0x1_0000_0000_0000, 0x100_0000_0000_0000];
    var bytes := Encode(v);
    FirstByte(v);
    forall k | 0 <= k < 8 ensures |bytes| == 9 && bytes[1 + k] == u / w[k] % 256 {
      IntegerByte(v, value, k);
      Weight(k, w);
    }
    NineBytes(bytes, u, w);
  }

  lemma Weight(k: nat, w: seq<nat>)
    requires k < 8
    requires w == [1, 0x100, 0x1_0000, 0x100_0000, 0x1_0000_0000, 0x100_0000_0000,
                   0x1_0000_0000_0000, 0x100_0000_0000_0000]
    ensures w[k] == Pow256(k)
  {
    assert Pow256(3) == w[3] && Pow256(7) == w[7];
  }

  lemma NineBytes(bytes: Bytes, u: uint64, w: seq<nat>)
    requires w == [1, 0x100, 0x1_0000, 0x100_0000, 0x1_0000_0000, 0x100_0000_0000,
                   0x1_0000_0000_0000, 0x100_0000_0000_0000]
    requires |bytes| == 9 && forall k :: 0 <= k < 8 ==> bytes[1 + k] == u / w[k] % 256
    ensures
      bytes ==
        [bytes[0],
         u % 0x100, u / 0x100 % 0x100, u / 0x1_0000 % 0x100, u / 0x100_0000 % 0x100,
         u / 0x1_0000_0000 % 0x100, u / 0x100_0000_0000 % 0x100,
         u / 0x1_0000_0000_0000 % 0x100, u / 0x100_0000_0000_0000]
  {
    assert bytes[1 + 0] == u / w[0] % 256 && bytes[1 + 1] == u / w[1] % 256;
    assert bytes[1 + 2] == u / w[2] % 256 && bytes[1 + 3] == u / w[3] % 256;
    assert bytes[1 + 4] == u / w[4] % 256 && bytes[1 + 5] == u / w[5] % 256;
    assert bytes[1 + 6] == u / w[6] % 256 && bytes[1 + 7] == u / w[7] % 256;
  }

  //  The other kinds

  /** Every kind of variant starts with its number. */
  lemma FirstByte(v: Variant)
    ensures
      Encode(v)[0] == match v
        case Null => 0
        case Int64(_) => 1
        case UInt64(_) => 2
        case Double(_) => 3
        case Bool(_) => 4
        case String(_) => 5
        case Array(_) => 6
        case Object(_) => 7
  {
  }

  lemma SmallBytes(image: Image)
    ensures Encode(Null) == [0]
    ensures Encode(Bool(false)) == [4, 0] && Encode(Bool(true)) == [4, 1]
    ensures Encode(Double(image)) == [3] + image
  {
  }

  function Concat(parts: seq<Bytes>): Bytes {
    if parts == [] then [] else parts[0] + Concat(parts[1..])
  }

  /** Text: its length and its characters. */
  lemma StringBytes(s: Bytes)
    requires |s| < 0x1_0000_0000
    ensures Encode(String(s)) == [5] + Varint.Encode(|s|) + s
  {
    CountIsExact(|s|);
  }

  /** An array: the number of its elements, and the elements in their order. */
  lemma ArrayBytesAre(vs: seq<Variant>, parts: seq<Bytes>)
    requires |vs| < 0x1_0000_0000
    requires |parts| == |vs| && forall i :: 0 <= i < |vs| ==> parts[i] == Encode(vs[i])
    ensures Encode(Array(vs)) == [6] + Varint.Encode(|vs|) + Concat(parts)
  {
    CountIsExact(|vs|);
    AllBytes(vs, parts);
  }

  lemma {:induction false} AllBytes(vs: seq<Variant>, parts: seq<Bytes>)
    requires |parts| == |vs| && forall i :: 0 <= i < |vs| ==> parts[i] == Encode(vs[i])
    ensures EncodeAll(vs) == Concat(parts)
  {
    if vs != [] {
      AllBytes(vs[1..], parts[1..]);
    }
  }

  /** An object: the number of its pairs, and for each the key, written as text is after
      the tag, and then its value. */
  lemma ObjectBytesAre(es: seq<Entry>, keys: seq<Bytes>, parts: seq<Bytes>)
    requires |es| < 0x1_0000_0000 && |keys| == |parts| == |es|
    requires forall i :: 0 <= i < |es| ==> [5] + keys[i] == Encode(String(es[i].key))
    requires forall i :: 0 <= i < |es| ==> parts[i] == keys[i] + Encode(es[i].value)
    ensures Encode(Object(es)) == [7] + Varint.Encode(|es|) + Concat(parts)
  {
    PairBytes(es, keys, parts);
    CountedEntries(es, parts);
  }

  lemma CountedEntries(es: seq<Entry>, parts: seq<Bytes>)
    requires |es| < 0x1_0000_0000 && |parts| == |es|
    requires forall i :: 0 <= i < |es| ==> parts[i] == EncodeString(es[i].key) + Encode(es[i].value)
    ensures Encode(Object(es)) == [7] + Varint.Encode(|es|) + Concat(parts)
  {
    CountIsExact(|es|);
    EntriesBytes(es, parts);
  }

  lemma PairBytes(es: seq<Entry>, keys: seq<Bytes>, parts: seq<Bytes>)
    requires |keys| == |parts| == |es|
    requires forall i :: 0 <= i < |es| ==> [5] + keys[i] == Encode(String(es[i].key))
    requires forall i :: 0 <= i < |es| ==> parts[i] == keys[i] + Encode(es[i].value)
    ensures forall i :: 0 <= i < |es| ==> parts[i] == EncodeString(es[i].key) + Encode(es[i].value)
  {
    forall i | 0 <= i < |es| ensures keys[i] == EncodeString(es[i].key) {
      KeyBytes(es[i].key, keys[i]);
    }
  }

  lemma KeyBytes(key: Bytes, written: Bytes)
    requires [5] + written == Encode(String(key))
    ensures written == EncodeString(key)
  {
    assert written == ([5] + written)[1..];
  }

  lemma {:induction false} EntriesBytes(es: seq<Entry>, parts: seq<Bytes>)
    requires |parts| == |es|
    requires forall i :: 0 <= i < |es| ==> parts[i] == EncodeString(es[i].key) + Encode(es[i].value)
    ensures EncodeEntries(es) == Concat(parts)
  {
    if es != [] {
      EntriesBytes(es[1..], parts[1..]);
    }
  }

  //  What is refused

  lemma Refusals(bytes: Bytes)
    ensures |bytes| == 0 ==> Decode(bytes) == Fail(OutOfRange)
    ensures |bytes| >= 1 && bytes[0] > 7 ==> Decode(bytes) == Fail(BadTag)
    ensures |bytes| >= 2 && bytes[0] == 4 && bytes[1] > 1 ==> Decode(bytes) == Fail(BadBool)
    ensures 1 <= |bytes| < 9 && 1 <= bytes[0] <= 3 ==> Decode(bytes) == Fail(OutOfRange)
    ensures |bytes| == 1 && 4 <= bytes[0] <= 7 ==> Decode(bytes) == Fail(OutOfRange)
  {
    if |bytes| == 1 && bytes[0] >= 4 {
      NothingLeft(bytes[1..]);
    }
  }

  lemma NothingLeft(body: Bytes)
    requires body == []
    ensures DecodeBool(body) == Fail(OutOfRange) && DecodeString(body) == Fail(OutOfRange)
    ensures DecodeArray(body) == Fail(OutOfRange) && DecodeObject(body) == Fail(OutOfRange)
  {
    assert Varint.Decode(body) == Fail(OutOfRange);
  }

  /** Text of ten megabytes is not read back. */
  lemma TextLimit(s: Bytes, rest: Bytes)
    ensures Decode(Encode(String(s)) + rest) == Ok(String(s), rest) <==> |s| < 10485760
  {
    RoundTripExactly(String(s), rest);
  }

  /** Nor are arrays of 655360 elements. */
  lemma ArrayLimit(vs: seq<Variant>, rest: Bytes)
    requires forall i :: 0 <= i < |vs| ==> vs[i].Null?
    ensures Decode(Encode(Array(vs)) + rest) == Ok(Array(vs), rest) <==> |vs| < 655360
  {
    RoundTripExactly(Array(vs), rest);
    forall i | 0 <= i < |vs| ensures WellFormed(vs[i]) {
      assert vs[i] == Null;
    }
  }

  //  Objects by their keys

  /** The value at a key: that of the first entry that has it. */
  function Find(es: seq<Entry>, key: Bytes): Option<Variant> {
    if es == [] then None else if es[0].key == key then Some(es[0].value) else Find(es[1..], key)
  }

  /** After setting a key it has the value, and the other keys have what they had. */
  lemma {:induction false} FindAfterSet(es: seq<Entry>, key: Bytes, value: Variant, k: Bytes)
    ensures Find(SetEntry(es, key, value), k) == if k == key then Some(value) else Find(es, k)
  {
    if es != [] && es[0].key != key {
      FindAfterSet(es[1..], key, value, k);
    }
  }

  /** The entry takes the place `p` of its key, and comes last if the key is new. */
  lemma {:induction false} SetInPlace(es: seq<Entry>, key: Bytes, value: Variant, p: nat)
    requires p <= |es| && Absent(es[..p], key) && (p < |es| ==> es[p].key == key)
    ensures SetEntry(es, key, value) == es[..p] + [Entry(key, value)] + if p < |es| then es[p + 1..] else []
  {
    if p > 0 {
      TailPlace(es, es[1..], key, p);
      SetInPlace(es[1..], key, value, p - 1);
      PlaceInTail(es, es[1..], p, [Entry(key, value)], if p < |es| then es[p + 1..] else []);
    }
  }

  lemma TailPlace(es: seq<Entry>, tail: seq<Entry>, key: Bytes, p: nat)
    requires 0 < p <= |es| && Absent(es[..p], key) && tail == es[1..]
    ensures es[0].key != key && Absent(tail[..p - 1], key)
    ensures p < |es| ==> tail[p - 1] == es[p] && tail[p..] == es[p + 1..]
  {
    var front, rear := es[..p], tail[..p - 1];
    assert front[0] == es[0];
    forall i | 0 <= i < p - 1 ensures rear[i].key != key {
      assert rear[i] == front[i + 1];
    }
  }

  lemma PlaceInTail(es: seq<Entry>, tail: seq<Entry>, p: nat, entry: seq<Entry>, after: seq<Entry>)
    requires 0 < p <= |es| && tail == es[1..]
    ensures [es[0]] + (tail[..p - 1] + entry + after) == es[..p] + entry + after
  {
    assert es[..p] == [es[0]] + tail[..p - 1];
  }

  /** The next `n` pairs of a byte string, as they stand there. */
  function Pairs(bytes: Bytes, n: nat): Result<seq<Entry>>
    decreases n
  {
    if n == 0 then Ok([], bytes)
    else match DecodeString(bytes)
      case Fail(e) => Fail(e)
      case Ok(key, rest) =>
        match Decode(rest)
        case Fail(e) => Fail(e)
        case Ok(value, rest') =>
          match Pairs(rest', n - 1)
          case Fail(e) => Fail(e)
          case Ok(more, left) => Ok([Entry(key, value)] + more, left)
  }

  /** The value of the last pair that has the key. */
  function LastAt(pairs: seq<Entry>, key: Bytes): Option<Variant> {
    if pairs == [] then None
    else if LastAt(pairs[1..], key).Some? then LastAt(pairs[1..], key)
    else if pairs[0].key == key then Some(pairs[0].value)
    else None
  }

  /** That is the value of the pair `i` if no pair after it has its key. */
  lemma {:induction false} LastPair(pairs: seq<Entry>, i: nat)
    requires i < |pairs| && Absent(pairs[i + 1..], pairs[i].key)
    ensures LastAt(pairs, pairs[i].key) == Some(pairs[i].value)
  {
    if i > 0 {
      assert pairs[1..][i..] == pairs[i + 1..];
      LastPair(pairs[1..], i - 1);
    } else {
      NoPair(pairs[1..], pairs[0].key);
    }
  }

  lemma {:induction false} NoPair(pairs: seq<Entry>, key: Bytes)
    ensures LastAt(pairs, key).None? <==> Absent(pairs, key)
  {
    if pairs != [] {
      NoPair(pairs[1..], key);
      assert Absent(pairs, key) <==> pairs[0].key != key && Absent(pairs[1..], key) by {
        assert pairs == [pairs[0]] + pairs[1..];
      }
    }
  }

  function KeysOf(es: seq<Entry>): seq<Bytes> {
    if es == [] then [] else [es[0].key] + KeysOf(es[1..])
  }

  /** The given keys and after them those of the pairs, each where it first appears. */
  function AddKeys(keys: seq<Bytes>, pairs: seq<Entry>): seq<Bytes>
    decreases pairs
  {
    if pairs == [] then keys
    else AddKeys(if pairs[0].key in keys then keys else keys + [pairs[0].key], pairs[1..])
  }

  /** Setting a key leaves the keys in their places. */
  lemma {:induction false} SetKeepsPlaces(es: seq<Entry>, key: Bytes, value: Variant)
    ensures KeysOf(SetEntry(es, key, value)) == KeysOf(es) + if key in KeysOf(es) then [] else [key]
  {
    if es != [] && es[0].key != key {
      SetKeepsPlaces(es[1..], key, value);
    }
  }

  /** What setting pairs in their order makes of the entries before, as `k` sees it. */
  predicate SetsInOrder(sofar: seq<Entry>, pairs: Result<seq<Entry>>, r: Result<seq<Entry>>, k: Bytes) {
    match pairs
    case Fail(e) => r == Fail(e)
    case Ok(ps, rest) =>
      && r.Ok? && r.rest == rest && KeysOf(r.value) == AddKeys(KeysOf(sofar), ps)
      && Find(r.value, k) == if LastAt(ps, k).Some? then LastAt(ps, k) else Find(sofar, k)
  }

  /** Reading pairs one after the other: each sets its key, so the last pair of a key tells
      its value, and the first one its place. */
  lemma {:induction false} ReadEntries(bytes: Bytes, n: nat, sofar: seq<Entry>, k: Bytes)
    ensures SetsInOrder(sofar, Pairs(bytes, n), DecodeEntries(bytes, n, sofar), k)
    decreases n
  {
    if n > 0 {
      if DecodeString(bytes).Ok? && Decode(DecodeString(bytes).rest).Ok? {
        var e, tail := Entry(DecodeString(bytes).value, Decode(DecodeString(bytes).rest).value),
                       Decode(DecodeString(bytes).rest).rest;
        var next := SetEntry(sofar, e.key, e.value);
        ReadEntries(tail, n - 1, next, k);
        FindAfterSet(sofar, e.key, e.value, k);
        SetKeepsPlaces(sofar, e.key, e.value);
        OneMorePair(sofar, e, next, Pairs(tail, n - 1), DecodeEntries(tail, n - 1, next), k);
        NextPair(bytes, n, sofar, e, tail);
      } else {
        NoPairThere(bytes, n, sofar);
      }
    }
  }

  lemma NoPairThere(bytes: Bytes, n: nat, sofar: seq<Entry>)
    requires n > 0 && !(DecodeString(bytes).Ok? && Decode(DecodeString(bytes).rest).Ok?)
    ensures DecodeEntries(bytes, n, sofar) == Pairs(bytes, n) && DecodeEntries(bytes, n, sofar).Fail?
  {
    assert DecodeEntry(bytes, sofar).Fail?;
  }

  lemma NextPair(bytes: Bytes, n: nat, sofar: seq<Entry>, e: Entry, tail: Bytes)
    requires n > 0 && DecodeString(bytes).Ok? && e.key == DecodeString(bytes).value
    requires Decode(DecodeString(bytes).rest) == Ok(e.value, tail)
    ensures DecodeEntries(bytes, n, sofar) == DecodeEntries(tail, n - 1, SetEntry(sofar, e.key, e.value))
    ensures Pairs(bytes, n) == InFront(e, Pairs(tail, n - 1))
  {
    assert DecodeEntry(bytes, sofar) == Ok(SetEntry(sofar, e.key, e.value), tail);
  }

  function InFront(e: Entry, pairs: Result<seq<Entry>>): Result<seq<Entry>> {
    match pairs
    case Fail(error) => Fail(error)
    case Ok(ps, rest) => Ok([e] + ps, rest)
  }

  lemma OneMorePair(sofar: seq<Entry>, e: Entry, next: seq<Entry>, pairs: Result<seq<Entry>>,
                    r: Result<seq<Entry>>, k: Bytes)
    requires KeysOf(next) == KeysOf(sofar) + if e.key in KeysOf(sofar) then [] else [e.key]
    requires Find(next, k) == if k == e.key then Some(e.value) else Find(sofar, k)
    requires SetsInOrder(next, pairs, r, k)
    ensures SetsInOrder(sofar, InFront(e, pairs), r, k)
  {
    if pairs.Ok? {
      var all := [e] + pairs.value;
      assert all[0] == e && all[1..] == pairs.value;
      assert KeysOf(sofar) + [] == KeysOf(sofar);
    }
  }

  predicate IsObjectOf(pairs: Result<seq<Entry>>, r: Result<Variant>, k: Bytes) {
    match pairs
    case Fail(e) => r == Fail(e)
    case Ok(ps, rest) =>
      && r.Ok? && r.rest == rest && r.value.Object?
      && KeysOf(r.value.entries) == AddKeys([], ps) && Find(r.value.entries, k) == LastAt(ps, k)
  }

  /** An object unpacks exactly if its pairs do; then every key has the value of its last
      pair, and the keys come in the order in which they first appear. */
  lemma UnpackedObject(bytes: Bytes, n: uint32, tail: Bytes, k: Bytes)
    requires Varint.Decode(bytes) == Ok(n, tail)
    ensures IsObjectOf(Pairs(tail, n), Decode([7] + bytes), k)
  {
    var r := DecodeEntries(tail, n, []);
    ReadEntries(tail, n, [], k);
    ObjectFrom(bytes, n, tail, r);
    if r.Ok? {
      TaggedObject(bytes, r.value, r.rest);
    } else {
      TaggedFailure(bytes, r.error);
    }
  }

  lemma TaggedFailure(bytes: Bytes, error: Error)
    requires DecodeObject(bytes) == Fail(error)
    ensures Decode([7] + bytes) == Fail(error)
  {
    assert ([7] + bytes)[1..] == bytes;
  }

  //  Packing an object that repeats keys

  lemma {:induction false} PairsRoundTrip(pairs: seq<Entry>, rest: Bytes, bytes: Bytes)
    requires EntriesWellFormed(pairs) && bytes == EncodeEntries(pairs) + rest
    ensures Pairs(bytes, |pairs|) == Ok(pairs, rest)
    decreases |pairs|
  {
    if pairs == [] {
      assert bytes == rest;
    } else {
      var e := pairs[0];
      var tail := EncodeEntries(pairs[1..]) + rest;
      assert bytes == EncodeString(e.key) + (Encode(e.value) + tail);
      StringRoundTrip(e.key, Encode(e.value) + tail);
      RoundTrip(e.value, tail);
      NextPair(bytes, |pairs|, [], e, tail);
      PairsRoundTrip(pairs[1..], rest, tail);
      assert [e] + pairs[1..] == pairs;
    }
  }

  /** What comes back from pairs whose keys need not differ. */
  lemma RepeatedKeys(pairs: seq<Entry>, rest: Bytes, k: Bytes)
    requires EntriesWellFormed(pairs) && |pairs| < 0x1_0000_0000
    ensures IsObjectOf(Ok(pairs, rest), Decode(Encode(Object(pairs)) + rest), k)
  {
    var head, tail := Varint.Encode(|pairs|), EncodeEntries(pairs) + rest;
    Varint.RoundTrip(|pairs|, tail);
    PairsRoundTrip(pairs, rest, tail);
    UnpackedObject(head + tail, |pairs|, tail, k);
    ObjectBytes(pairs, rest);
  }

  /** Twice the same key: the second value stays. */
  lemma RepeatedKeyExample(pairs: seq<Entry>)
    requires pairs == [Entry([97], Int64(1)), Entry([97], Int64(2))]
    ensures Decode(Encode(Object(pairs))) == Ok(Object([Entry([97], Int64(2))]), [])
  {
    RepeatedKeys(pairs, [], [97]);
    assert Encode(Object(pairs)) + [] == Encode(Object(pairs));
    var es := Decode(Encode(Object(pairs))).value.entries;
    OneKey(pairs, [97]);
    SingleEntry(es, [97], Int64(2));
  }

  lemma OneKey(pairs: seq<Entry>, key: Bytes)
    requires |pairs| == 2 && pairs[0].key == pairs[1].key == key
    ensures AddKeys([], pairs) == [key] && LastAt(pairs, key) == Some(pairs[1].value)
  {
    assert pairs[1..] == [pairs[1]] && pairs[1..][1..] == [];
    LastPair(pairs, 1);
    var none: seq<Bytes> := [];
    assert none + [key] == [key];
    assert AddKeys([key], pairs[1..]) == AddKeys([key], pairs[1..][1..]);
  }

  lemma SingleEntry(es: seq<Entry>, key: Bytes, value: Variant)
    requires KeysOf(es) == [key] && Find(es, key) == Some(value)
    ensures es == [Entry(key, value)]
  {
    assert KeysOf(es[1..]) == KeysOf(es)[1..] == [];
    assert es[1..] == [];
  }
}
