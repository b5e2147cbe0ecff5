/**
 The codec combinators of the raw serialization. A codec is lawful when decoding
 an encoding, with anything after it, gives the value back and leaves the rest;
 each combinator keeps that law.
 */
module Codecs {
  import opened Basics
  import opened RawTypes
  import opened VariantCodec
  import Varint
  import VariantLaws
  import opened VariantBytes

  /** How values of a type are packed and unpacked, and which of them survive it. */
  datatype Codec<!T> = Codec(enc: T -> Bytes, dec: Bytes -> Result<T>, valid: T -> bool)

  ghost predicate RoundTrips<T>(c: Codec<T>, v: T, rest: Bytes) {
    c.valid(v) ==> c.dec(c.enc(v) + rest) == Ok(v, rest)
  }

  ghost predicate Lawful<T(!new)>(c: Codec<T>) {
    forall v: T, rest: Bytes :: RoundTrips(c, v, rest)
  }

  //  Optional

  function EncodeOptional<T>(c: Codec<T>, v: Option<T>): Bytes {
    match v
    case None => EncodeBool(false)
    case Some(x) => EncodeBool(true) + c.enc(x)
  }

  function DecodeOptional<T>(c: Codec<T>, bytes: Bytes): Result<Option<T>> {
    match DecodeBool(bytes)
    case Fail(e) => Fail(e)
    case Ok(false, rest) => Ok(None, rest)
    case Ok(true, rest) =>
      match c.dec(rest)
      case Fail(e) => Fail(e)
      case Ok(x, rest') => Ok(Some(x), rest')
  }

  function OptionalCodec<T>(c: Codec<T>): Codec<Option<T>> {
    Codec(v => EncodeOptional(c, v), bytes => DecodeOptional(c, bytes), (v: Option<T>) => v.None? || c.valid(v.value))
  }

  lemma OptionalIsLawful<T(!new)>(c: Codec<T>)
    requires Lawful(c)
    ensures Lawful(OptionalCodec(c))
  {
    forall v: Option<T>, rest: Bytes ensures RoundTrips(OptionalCodec(c), v, rest) {
      match v
      case None =>
        assert (EncodeBool(false) + rest)[1..] == rest;
      case Some(x) =>
        assert RoundTrips(c, x, rest);
        assert (EncodeBool(true) + c.enc(x) + rest)[1..] == c.enc(x) + rest;
    }
  }

  //  Pairs

  function DecodePair<A, B>(a: Codec<A>, b: Codec<B>, bytes: Bytes): Result<(A, B)> {
    match a.dec(bytes)
    case Fail(e) => Fail(e)
    case Ok(x, rest) =>
      match b.dec(rest)
      case Fail(e) => Fail(e)
      case Ok(y, rest') => Ok((x, y), rest')
  }

  function PairCodec<A, B>(a: Codec<A>, b: Codec<B>): Codec<(A, B)> {
    Codec((v: (A, B)) => a.enc(v.0) + b.enc(v.1), bytes => DecodePair(a, b, bytes),
          (v: (A, B)) => a.valid(v.0) && b.valid(v.1))
  }

  lemma PairIsLawful<A(!new), B(!new)>(a: Codec<A>, b: Codec<B>)
    requires Lawful(a) && Lawful(b)
    ensures Lawful(PairCodec(a, b))
  {
    forall v: (A, B), rest: Bytes ensures RoundTrips(PairCodec(a, b), v, rest) {
      assert RoundTrips(a, v.0, b.enc(v.1) + rest);
      assert RoundTrips(b, v.1, rest);
      assert a.enc(v.0) + b.enc(v.1) + rest == a.enc(v.0) + (b.enc(v.1) + rest);
    }
  }

  //  Vectors

  function EncodeEach<T>(c: Codec<T>, vs: seq<T>): Bytes {
    if vs == [] then [] else c.enc(vs[0]) + EncodeEach(c, vs[1..])
  }

  function EncodeCounted<T>(c: Codec<T>, vs: seq<T>): Bytes {
    Varint.Encode(Count(|vs|)) + EncodeEach(c, vs)
  }

  function DecodeEach<T>(c: Codec<T>, bytes: Bytes, n: nat): Result<seq<T>>
    decreases n
  {
    if n == 0 then Ok([], bytes)
    else match c.dec(bytes)
      case Fail(e) => Fail(e)
      case Ok(v, rest) =>
        match DecodeEach(c, rest, n - 1)
        case Fail(e) => Fail(e)
        case Ok(vs, rest') => Ok([v] + vs, rest')
  }

  predicate AllValid<T>(c: Codec<T>, vs: seq<T>) {
    forall i :: 0 <= i < |vs| ==> c.valid(vs[i])
  }

  /** `elementSize` is `sizeof` of the element type, which the decoder's limit is multiplied by. */
  function DecodeVector<T>(c: Codec<T>, elementSize: nat, bytes: Bytes): Result<seq<T>> {
    match Varint.Decode(bytes)
    case Fail(e) => Fail(e)
    case Ok(n, rest) =>
      if n * elementSize >= MAX_ARRAY_ALLOC_SIZE then Fail(TooLong) else DecodeEach(c, rest, n)
  }

  function VectorCodec<T>(c: Codec<T>, elementSize: nat): Codec<seq<T>> {
    Codec((vs: seq<T>) => EncodeCounted(c, vs), bytes => DecodeVector(c, elementSize, bytes),
          (vs: seq<T>) => |vs| < 0x1_0000_0000 && |vs| * elementSize < MAX_ARRAY_ALLOC_SIZE && AllValid(c, vs))
  }

  lemma VectorIsLawful<T(!new)>(c: Codec<T>, elementSize: nat)
    requires Lawful(c)
    ensures Lawful(VectorCodec(c, elementSize))
  {
    forall vs: seq<T>, rest: Bytes ensures RoundTrips(VectorCodec(c, elementSize), vs, rest) {
      if VectorCodec(c, elementSize).valid(vs) {
        CountedHead(c, vs, rest);
        EachRoundTrips(c, vs, rest, EncodeEach(c, vs) + rest);
      }
    }
  }

  lemma CountedHead<T>(c: Codec<T>, vs: seq<T>, rest: Bytes)
    requires |vs| < 0x1_0000_0000
    ensures Varint.Decode(EncodeCounted(c, vs) + rest) == Ok(|vs|, EncodeEach(c, vs) + rest)
  {
    CountIsExact(|vs|);
    var head, tail := Varint.Encode(|vs|), EncodeEach(c, vs) + rest;
    assert EncodeCounted(c, vs) + rest == head + tail;
    Varint.RoundTrip(|vs|, tail);
  }

  lemma {:induction false} EachRoundTrips<T(!new)>(c: Codec<T>, vs: seq<T>, rest: Bytes, bytes: Bytes)
    requires Lawful(c) && AllValid(c, vs) && bytes == EncodeEach(c, vs) + rest
    ensures DecodeEach(c, bytes, |vs|) == Ok(vs, rest)
    decreases |vs|
  {
    if vs == [] {
      assert bytes == rest;
    } else {
      var tail := EncodeEach(c, vs[1..]) + rest;
      assert bytes == c.enc(vs[0]) + tail;
      assert RoundTrips(c, vs[0], tail);
      EachRoundTrips(c, vs[1..], rest, tail);
      assert vs == [vs[0]] + vs[1..];
    }
  }

  //  Ordered containers: a set or map is the ascending sequence of its elements

  predicate Ascending<T>(less: (T, T) -> bool, s: seq<T>) {
    forall i, j :: 0 <= i < j < |s| ==> less(s[i], s[j])
  }

  /** `insert` keeps the element that is already there when keys are equivalent. */
  function Insert<T>(less: (T, T) -> bool, s: seq<T>, x: T): seq<T> {
    if s == [] then [x]
    else if less(s[0], x) then [s[0]] + Insert(less, s[1..], x)
    else if less(x, s[0]) then [x] + s
    else s
  }

  function DecodeInserting<T>(c: Codec<T>, less: (T, T) -> bool, bytes: Bytes, n: nat, sofar: seq<T>): Result<seq<T>>
    decreases n
  {
    if n == 0 then Ok(sofar, bytes)
    else match c.dec(bytes)
      case Fail(e) => Fail(e)
      case Ok(x, rest) => DecodeInserting(c, less, rest, n - 1, Insert(less, sofar, x))
  }

  /** `elementSize` is zero for a set, whose decoder checks no limit. */
  function DecodeOrdered<T>(c: Codec<T>, less: (T, T) -> bool, elementSize: nat, bytes: Bytes): Result<seq<T>> {
    match Varint.Decode(bytes)
    case Fail(e) => Fail(e)
    case Ok(n, rest) =>
      if n * elementSize >= MAX_ARRAY_ALLOC_SIZE then Fail(TooLong) else DecodeInserting(c, less, rest, n, [])
  }

  function OrderedCodec<T>(c: Codec<T>, less: (T, T) -> bool, elementSize: nat): Codec<seq<T>> {
    Codec((s: seq<T>) => EncodeCounted(c, s), bytes => DecodeOrdered(c, less, elementSize, bytes),
          (s: seq<T>) => && |s| < 0x1_0000_0000 && |s| * elementSize < MAX_ARRAY_ALLOC_SIZE
                         && AllValid(c, s) && Ascending(less, s))
  }

  function SetCodec<T>(c: Codec<T>, less: (T, T) -> bool): Codec<seq<T>> {
    OrderedCodec(c, less, 0)
  }

  /** A map is an ordered container of pairs, compared by key. */
  function MapCodec<K, V>(k: Codec<K>, v: Codec<V>, less: (K, K) -> bool, elementSize: nat): Codec<seq<(K, V)>> {
    OrderedCodec(PairCodec(k, v), (x: (K, V), y: (K, V)) => less(x.0, y.0), elementSize)
  }

  lemma OrderedIsLawful<T(!new)>(c: Codec<T>, less: (T, T) -> bool, elementSize: nat)
    requires Lawful(c)
    ensures Lawful(OrderedCodec(c, less, elementSize))
  {
    forall s: seq<T>, rest: Bytes ensures RoundTrips(OrderedCodec(c, less, elementSize), s, rest) {
      if OrderedCodec(c, less, elementSize).valid(s) {
        OrderedRoundTrips(c, less, elementSize, s, rest);
      }
    }
  }

  lemma OrderedRoundTrips<T(!new)>(c: Codec<T>, less: (T, T) -> bool, elementSize: nat, s: seq<T>, rest: Bytes)
    requires Lawful(c) && AllValid(c, s) && Ascending(less, s)
    requires |s| < 0x1_0000_0000 && |s| * elementSize < MAX_ARRAY_ALLOC_SIZE
    ensures DecodeOrdered(c, less, elementSize, EncodeCounted(c, s) + rest) == Ok(s, rest)
  {
    CountedHead(c, s, rest);
    assert s[0..] == s && s[..0] == [];
    InsertingRoundTrips(c, less, s, rest, 0, EncodeEach(c, s) + rest);
  }

  lemma {:induction false} InsertingRoundTrips<T(!new)>(c: Codec<T>, less: (T, T) -> bool, s: seq<T>, rest: Bytes,
                                                        i: nat, bytes: Bytes)
    requires Lawful(c) && AllValid(c, s) && Ascending(less, s)
    requires i <= |s| && bytes == EncodeEach(c, s[i..]) + rest
    ensures DecodeInserting(c, less, bytes, |s| - i, s[..i]) == Ok(s, rest)
    decreases |s| - i
  {
    if i == |s| {
      assert bytes == rest && s[..i] == s;
    } else {
      var tail := EncodeEach(c, s[i + 1..]) + rest;
      assert s[i..][0] == s[i] && s[i..][1..] == s[i + 1..];
      assert bytes == c.enc(s[i]) + tail;
      assert RoundTrips(c, s[i], tail);
      InsertLast(less, s[..i], s[i]);
      assert s[..i] + [s[i]] == s[..i + 1];
      InsertingRoundTrips(c, less, s, rest, i + 1, tail);
    }
  }

  lemma {:induction false} InsertLast<T>(less: (T, T) -> bool, s: seq<T>, x: T)
    requires forall i :: 0 <= i < |s| ==> less(s[i], x)
    ensures Insert(less, s, x) == s + [x]
  {
    if s != [] {
      InsertLast(less, s[1..], x);
    }
  }

  lemma SetAndMapAreLawful<K(!new), V(!new)>(k: Codec<K>, v: Codec<V>, less: (K, K) -> bool, elementSize: nat)
    requires Lawful(k) && Lawful(v)
    ensures Lawful(SetCodec(k, less)) && Lawful(MapCodec(k, v, less, elementSize))
  {
    OrderedIsLawful(k, less, 0);
    PairIsLawful(k, v);
    OrderedIsLawful(PairCodec(k, v), (x: (K, V), y: (K, V)) => less(x.0, y.0), elementSize);
  }

  //  Decoding builds a container: what comes out is always ascending

  ghost predicate StrictWeakOrder<T(!new)>(less: (T, T) -> bool) {
    && (forall x: T :: !less(x, x))
    && (forall x: T, y: T, z: T :: less(x, y) && less(y, z) ==> less(x, z))
    && (forall x: T, y: T, z: T :: less(x, z) ==> less(x, y) || less(y, z))
  }

  lemma {:induction false} InsertKeepsAscending<T(!new)>(less: (T, T) -> bool, s: seq<T>, x: T)
    requires StrictWeakOrder(less) && Ascending(less, s)
    ensures Ascending(less, Insert(less, s, x))
    ensures forall y: T :: (forall i :: 0 <= i < |s| ==> less(y, s[i])) && less(y, x)
              ==> forall i :: 0 <= i < |Insert(less, s, x)| ==> less(y, Insert(less, s, x)[i])
  {
    if s != [] {
      InsertKeepsAscending(less, s[1..], x);
    }
  }

  lemma {:induction false} DecodedIsAscending<T(!new)>(c: Codec<T>, less: (T, T) -> bool, bytes: Bytes, n: nat, sofar: seq<T>)
    requires StrictWeakOrder(less) && Ascending(less, sofar)
    ensures var r := DecodeInserting(c, less, bytes, n, sofar);
            r.Ok? ==> Ascending(less, r.value)
    decreases n
  {
    if n > 0 && c.dec(bytes).Ok? {
      var head := c.dec(bytes);
      InsertKeepsAscending(less, sofar, head.value);
      DecodedIsAscending(c, less, head.rest, n - 1, Insert(less, sofar, head.value));
    }
  }

  /** An element equivalent to one that is there is dropped: of equal keys the first stays. */
  lemma {:induction false} InsertOld<T(!new)>(less: (T, T) -> bool, s: seq<T>, x: T, i: nat)
    requires StrictWeakOrder(less) && Ascending(less, s)
    requires i < |s| && !less(s[i], x) && !less(x, s[i])
    ensures Insert(less, s, x) == s
  {
    if i > 0 {
      assert less(s[0], s[i]);
      InsertOld(less, s[1..], x, i - 1);
    }
  }

  /** Any other is added, and nothing else changes. */
  lemma {:induction false} InsertNew<T(!new)>(less: (T, T) -> bool, s: seq<T>, x: T)
    requires forall i :: 0 <= i < |s| ==> less(s[i], x) || less(x, s[i])
    ensures multiset(Insert(less, s, x)) == multiset(s) + multiset{x}
  {
    if s != [] {
      InsertNew(less, s[1..], x);
      assert s == [s[0]] + s[1..];
    }
  }

  //  Bytes

  /** One byte tells whether there is a value. */
  lemma OptionalBytes<T>(c: Codec<T>, x: T)
    ensures OptionalCodec(c).enc(None) == [0] && OptionalCodec(c).enc(Some(x)) == [1] + c.enc(x)
  {
  }

  /** Containers: the number of elements, and the elements in their order. */
  lemma CountedBytes<T>(c: Codec<T>, vs: seq<T>, parts: seq<Bytes>)
    requires |vs| < 0x1_0000_0000 && |parts| == |vs| && forall i :: 0 <= i < |vs| ==> parts[i] == c.enc(vs[i])
    ensures EncodeCounted(c, vs) == Varint.Encode(|vs|) + Concat(parts)
  {
    CountIsExact(|vs|);
    EachBytes(c, vs, parts);
  }

  lemma {:induction false} EachBytes<T>(c: Codec<T>, vs: seq<T>, parts: seq<Bytes>)
    requires |parts| == |vs| && forall i :: 0 <= i < |vs| ==> parts[i] == c.enc(vs[i])
    ensures EncodeEach(c, vs) == Concat(parts)
  {
    if vs != [] {
      EachBytes(c, vs[1..], parts[1..]);
    }
  }

  //  Tagged unions

  /** A value of the alternative `which`; all alternatives are seen through one type. */
  datatype Tagged<+T> = Tagged(which: nat, value: T)

  function EncodeTagged<T>(alternatives: seq<Codec<T>>, v: Tagged<T>): Bytes {
    if v.which >= |alternatives| then []
    else Varint.Encode(Count(v.which)) + alternatives[v.which].enc(v.value)
  }

  function DecodeTagged<T>(alternatives: seq<Codec<T>>, bytes: Bytes): Result<Tagged<T>> {
    match Varint.Decode(bytes)
    case Fail(e) => Fail(e)
    case Ok(w, rest) =>
      if w >= |alternatives| then Fail(BadTag)
      else match alternatives[w].dec(rest)
        case Fail(e) => Fail(e)
        case Ok(value, rest') => Ok(Tagged(w, value), rest')
  }

  function StaticVariantCodec<T>(alternatives: seq<Codec<T>>): Codec<Tagged<T>> {
    Codec((v: Tagged<T>) => EncodeTagged(alternatives, v), bytes => DecodeTagged(alternatives, bytes),
          (v: Tagged<T>) => v.which < |alternatives| && v.which < 0x8000_0000 && alternatives[v.which].valid(v.value))
  }

  lemma StaticVariantIsLawful<T(!new)>(alternatives: seq<Codec<T>>)
    requires forall i :: 0 <= i < |alternatives| ==> Lawful(alternatives[i])
    ensures Lawful(StaticVariantCodec(alternatives))
  {
    forall v: Tagged<T>, rest: Bytes ensures RoundTrips(StaticVariantCodec(alternatives), v, rest) {
      if StaticVariantCodec(alternatives).valid(v) {
        var c := alternatives[v.which];
        var head, tail := Varint.Encode(v.which), c.enc(v.value) + rest;
        CountIsExact(v.which);
        assert EncodeTagged(alternatives, v) + rest == head + tail;
        Varint.RoundTrip(v.which, tail);
        assert RoundTrips(c, v.value, rest);
      }
    }
  }

  //  The leaves

  function VariantsCodec(): Codec<Variant> {
    Codec(v => Encode(v), bytes => Decode(bytes), v => WellFormed(v))
  }

  function StringCodec(): Codec<Bytes> {
    Codec(s => EncodeString(s), bytes => DecodeString(bytes), (s: Bytes) => |s| < MAX_ARRAY_ALLOC_SIZE)
  }

  lemma LeavesAreLawful()
    ensures Lawful(VariantsCodec()) && Lawful(StringCodec())
  {
    forall v: Variant, rest: Bytes ensures RoundTrips(VariantsCodec(), v, rest) {
      if WellFormed(v) {
        VariantLaws.RoundTrip(v, rest);
      }
    }
    forall s: Bytes, rest: Bytes ensures RoundTrips(StringCodec(), s, rest) {
      if |s| < MAX_ARRAY_ALLOC_SIZE {
        StringRoundTrip(s, rest);
      }
    }
  }
}
