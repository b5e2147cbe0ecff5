/**
 Which byte strings are the encoding of what they decode to. Hashes cover encoded bytes,
 and the decoder takes more: varints with padding or with bits above the thirty-second,
 and objects that repeat a key.
 */
module VariantCanonical {
  import opened RawTypes
  import Varint
  import opened VariantCodec
  import opened VariantLaws

  //  Varints

  /** A varint, `k` bytes of which have gone before, that ends in no superfluous byte and
      has no bit above the thirty-second. */
  predicate Least(bytes: Bytes, k: nat) {
    && bytes != [] && k < 5 && (k == 4 ==> bytes[0] < 16)
    && if bytes[0] >= 128 then Least(bytes[1..], k + 1) else k == 0 || bytes[0] != 0
  }

  /** The value of a varint, without truncation. */
  function Value(bytes: Bytes): nat {
    if bytes == [] then 0
    else if bytes[0] < 128 then bytes[0]
    else bytes[0] % 128 + 128 * Value(bytes[1..])
  }

  function After(bytes: Bytes): Bytes {
    if bytes == [] then [] else if bytes[0] < 128 then bytes[1..] else After(bytes[1..])
  }

  /** What decodes is the value, of which the lowest 32 bits are kept. */
  lemma {:induction false} DecodedValue(bytes: Bytes, k: nat, v: nat)
    requires Varint.DecodeFrom(bytes, k, v).Ok?
    ensures k < 5 && Varint.DecodeFrom(bytes, k, v).rest == After(bytes)
    ensures Varint.DecodeFrom(bytes, k, v).value == (v + Varint.Shifted(Value(bytes), k)) % 0x1_0000_0000
    decreases |bytes|
  {
    if bytes[0] >= 128 {
      DecodedValue(bytes[1..], k + 1, v + Varint.Digit(bytes[0], k));
      Varint.DigitFits(bytes[0], k);
      ShiftedSum(bytes[0] % 128, Value(bytes[1..]), k);
    } else {
      AddRemainder(v, Varint.Shifted(bytes[0], k));
    }
  }

  lemma ShiftedSum(d: nat, n: nat, k: nat)
    requires k < 4
    ensures Varint.Shifted(d + 128 * n, k) == Varint.Shifted(d, k) + Varint.Shifted(n, k + 1)
  {
  }

  lemma AddRemainder(v: nat, x: nat)
    ensures (v + x % 0x1_0000_0000) % 0x1_0000_0000 == (v + x) % 0x1_0000_0000
  {
  }

  /** A varint decodes exactly if one of its first five bytes ends it. */
  lemma {:induction false} DecodesExactly(bytes: Bytes, k: nat, v: nat)
    ensures Varint.DecodeFrom(bytes, k, v).Ok? <==> exists i :: 0 <= i < |bytes| && i + k < 5 && EndsAt(bytes, i)
    decreases |bytes|
  {
    if bytes != [] && k < 5 && bytes[0] >= 128 {
      var tail := bytes[1..];
      DecodesExactly(tail, k + 1, v + Varint.Digit(bytes[0], k));
      if i :| 0 <= i < |bytes| && i + k < 5 && EndsAt(bytes, i) {
        assert EndsAt(tail, i - 1);
      }
      if i :| 0 <= i < |tail| && i + k + 1 < 5 && EndsAt(tail, i) {
        assert EndsAt(bytes, i + 1);
      }
    } else if bytes != [] && k < 5 {
      assert EndsAt(bytes, 0);
    }
  }

  predicate EndsAt(bytes: Bytes, i: nat)
    requires i < |bytes|
  {
    bytes[i] < 128 && forall j :: 0 <= j < i ==> bytes[j] >= 128
  }

  lemma {:induction false} LeastIsEncoded(bytes: Bytes, k: nat)
    requires Least(bytes, k)
    ensures bytes == Varint.Encode(Value(bytes)) + After(bytes) && (k > 0 ==> Value(bytes) > 0)
    ensures Varint.Shifted(Value(bytes), k) + Varint.Shifted(1, k) <= 0x1_0000_0000
    decreases |bytes|
  {
    if bytes[0] >= 128 {
      LeastIsEncoded(bytes[1..], k + 1);
      var n := Value(bytes[1..]);
      EncodedMore(bytes, n, After(bytes));
      ShiftedMore(bytes[0] % 128, n, k);
    } else {
      assert Varint.Encode(bytes[0]) == [bytes[0]];
    }
  }

  lemma EncodedMore(bytes: Bytes, n: nat, rest: Bytes)
    requires bytes != [] && bytes[0] >= 128 && n > 0 && bytes[1..] == Varint.Encode(n) + rest
    ensures bytes == Varint.Encode(bytes[0] % 128 + 128 * n) + rest
  {
    var m := bytes[0] % 128 + 128 * n;
    assert m / 128 == n && m % 128 == bytes[0] % 128;
    assert Varint.Encode(m) == [bytes[0]] + Varint.Encode(n);
    assert bytes == [bytes[0]] + bytes[1..];
  }

  lemma ShiftedMore(d: nat, n: nat, k: nat)
    requires d < 128 && k < 4 && Varint.Shifted(n, k + 1) + Varint.Shifted(1, k + 1) <= 0x1_0000_0000
    ensures Varint.Shifted(d + 128 * n, k) + Varint.Shifted(1, k) <= 0x1_0000_0000
  {
  }

  lemma {:induction false} EncodedIsLeast(n: nat, rest: Bytes, k: nat, v: nat, bytes: Bytes)
    requires bytes == Varint.Encode(n) + rest && k < 5 && v < Varint.Shifted(1, k)
    requires v + Varint.Shifted(n, k) < 0x1_0000_0000 && (k > 0 ==> n > 0)
    ensures Least(bytes, k)
    decreases n
  {
    Varint.EncodeHead(n, rest);
    if n >= 128 {
      Varint.ShiftedDigits(n, k, v);
      EncodedIsLeast(n / 128, rest, k + 1, v + Varint.Shifted(n % 128, k), bytes[1..]);
    }
  }

  /** A varint is the encoding of its value exactly if it is least. */
  lemma CanonicalVarint(bytes: Bytes)
    requires Varint.Decode(bytes).Ok?
    ensures Least(bytes, 0) <==> bytes == Varint.Encode(Varint.Decode(bytes).value) + Varint.Decode(bytes).rest
  {
    if Least(bytes, 0) {
      LeastIsEncoded(bytes, 0);
      Varint.RoundTrip(Value(bytes), After(bytes));
    } else {
      var r := Varint.Decode(bytes);
      if bytes == Varint.Encode(r.value) + r.rest {
        EncodedIsLeast(r.value, r.rest, 0, 0, bytes);
      }
    }
  }

  /** Two bytes that decode to zero. */
  lemma PaddedZero()
    ensures Varint.Decode([128, 0]) == Ok(0, []) && !Least([128, 0], 0)
  {
    assert [128, 0][1..] == [0] && [0][1..] == [];
    assert Varint.DecodeFrom([0], 1, 0) == Ok(0, []);
  }

  //  Strings and numbers

  lemma CanonicalString(bytes: Bytes)
    requires DecodeString(bytes).Ok?
    ensures Least(bytes, 0) <==> bytes == EncodeString(DecodeString(bytes).value) + DecodeString(bytes).rest
  {
    CanonicalVarint(bytes);
    var n, rest := Varint.Decode(bytes).value, Varint.Decode(bytes).rest;
    var s, left := DecodeString(bytes).value, DecodeString(bytes).rest;
    CountIsExact(n);
    assert s + left == rest;
    assert EncodeString(s) + left == Varint.Encode(n) + rest;
  }

  lemma {:induction false} FromLittleEndianExact(b: Bytes)
    ensures LittleEndian(FromLittleEndian(b), |b|) == b
  {
    if b != [] {
      FromLittleEndianExact(b[1..]);
      var n := FromLittleEndian(b[1..]);
      assert (b[0] + 256 * n) % 256 == b[0] && (b[0] + 256 * n) / 256 == n;
    }
  }

  lemma CanonicalUInt64(bytes: Bytes)
    requires DecodeUInt64(bytes).Ok?
    ensures bytes == EncodeUInt64(DecodeUInt64(bytes).value) + DecodeUInt64(bytes).rest
  {
    FromLittleEndianExact(bytes[..8]);
    assert bytes == bytes[..8] + bytes[8..];
  }

  //  Variants

  /** Whether all varints of a variant are least and no object repeats a key. */
  predicate Plain(bytes: Bytes)
    decreases |bytes|, 0
  {
    && bytes != []
    && match bytes[0]
       case 5 => Least(bytes[1..], 0)
       case 6 => Least(bytes[1..], 0) && Varint.Decode(bytes[1..]).Ok?
                 && PlainAll(Varint.Decode(bytes[1..]).rest, Varint.Decode(bytes[1..]).value)
       case 7 => Least(bytes[1..], 0) && Varint.Decode(bytes[1..]).Ok?
                 && PlainEntries(Varint.Decode(bytes[1..]).rest, Varint.Decode(bytes[1..]).value, [])
       case _ => true
  }

  predicate PlainAll(bytes: Bytes, n: nat)
    decreases |bytes|, 1
  {
    n == 0 || (Plain(bytes) && Decode(bytes).Ok? && PlainAll(Decode(bytes).rest, n - 1))
  }

  predicate PlainEntries(bytes: Bytes, n: nat, sofar: seq<Entry>)
    decreases |bytes|, 1
  {
    n == 0 || (PlainEntry(bytes, sofar) && DecodeEntry(bytes, sofar).Ok?
               && PlainEntries(DecodeEntry(bytes, sofar).rest, n - 1, DecodeEntry(bytes, sofar).value))
  }

  predicate PlainEntry(bytes: Bytes, sofar: seq<Entry>)
    decreases |bytes|, 0
  {
    && Least(bytes, 0) && DecodeString(bytes).Ok?
    && Plain(DecodeString(bytes).rest) && Absent(sofar, DecodeString(bytes).value)
  }

  /** Bytes that decode are the encoding of what they decode to exactly if they are plain. */
  lemma {:induction false} Canonical(bytes: Bytes)
    requires Decode(bytes).Ok?
    ensures Plain(bytes) <==> bytes == Encode(Decode(bytes).value) + Decode(bytes).rest
    decreases |bytes|, 2
  {
    var body := bytes[1..];
    assert bytes == [bytes[0]] + body;
    match bytes[0]
    case 6 =>
      CanonicalVarint(body);
      CanonicalArray(body);
      Tagged(bytes, Decode(bytes).value, Decode(bytes).rest);
    case 7 =>
      CanonicalVarint(body);
      CanonicalObject(body);
      Tagged(bytes, Decode(bytes).value, Decode(bytes).rest);
    case _ =>
      CanonicalScalar(bytes);
  }

  lemma Tagged(bytes: Bytes, v: Variant, rest: Bytes)
    requires bytes != [] && bytes[0] == TypeId(v)
    ensures bytes == Encode(v) + rest <==> bytes[1..] == EncodeBody(v) + rest
  {
    assert Encode(v) + rest == [TypeId(v)] + (EncodeBody(v) + rest);
    assert bytes == [bytes[0]] + bytes[1..];
    if bytes == Encode(v) + rest {
      assert bytes[1..] == (Encode(v) + rest)[1..];
    }
  }

  lemma CanonicalScalar(bytes: Bytes)
    requires Decode(bytes).Ok? && bytes[0] != 6 && bytes[0] != 7
    ensures Plain(bytes) <==> bytes == Encode(Decode(bytes).value) + Decode(bytes).rest
  {
    var body, v := bytes[1..], Decode(bytes).value;
    Tagged(bytes, v, Decode(bytes).rest);
    match bytes[0]
    case 0 =>
    case 1 => CanonicalUInt64(body);
    case 2 => CanonicalUInt64(body);
    case 3 => assert body == body[..8] + body[8..];
    case 4 => assert body == [body[0]] + body[1..];
    case 5 => CanonicalString(body);
  }

  /** A count in front of anything. */
  lemma CountInFront(body: Bytes, n: uint32, tail: Bytes, x: Bytes)
    requires Varint.Decode(body) == Ok(n, tail)
    ensures Least(body, 0) && tail == x <==> body == Varint.Encode(n) + x
  {
    CanonicalVarint(body);
    if body == Varint.Encode(n) + x {
      Varint.RoundTrip(n, x);
    }
  }

  lemma CanonicalArray(body: Bytes)
    requires DecodeArray(body).Ok?
    ensures
      var vs, rest := DecodeArray(body).value, DecodeArray(body).rest;
      Plain([6] + body) <==> body == EncodeBody(Array(vs)) + rest
    decreases |body|, 3
  {
    var n, tail := Varint.Decode(body).value, Varint.Decode(body).rest;
    var vs, rest := DecodeArray(body).value, DecodeArray(body).rest;
    CanonicalAll(tail, n);
    CountInFront(body, n, tail, EncodeAll(vs) + rest);
    PlainArray(body, n, tail);
    ArrayBody(vs, rest);
  }

  lemma PlainArray(body: Bytes, n: uint32, tail: Bytes)
    requires Varint.Decode(body) == Ok(n, tail)
    ensures Plain([6] + body) <==> Least(body, 0) && PlainAll(tail, n)
  {
    assert ([6] + body)[1..] == body;
  }

  lemma ArrayBody(vs: seq<Variant>, rest: Bytes)
    requires |vs| < 0x1_0000_0000
    ensures EncodeBody(Array(vs)) + rest == Varint.Encode(|vs|) + (EncodeAll(vs) + rest)
  {
    CountIsExact(|vs|);
  }

  lemma {:induction false} CanonicalAll(bytes: Bytes, n: nat)
    requires DecodeAll(bytes, n).Ok?
    ensures PlainAll(bytes, n) <==> bytes == EncodeAll(DecodeAll(bytes, n).value) + DecodeAll(bytes, n).rest
    decreases |bytes|, 3
  {
    var vs, rest := DecodeAll(bytes, n).value, DecodeAll(bytes, n).rest;
    if n == 0 {
      assert EncodeAll(vs) + rest == rest;
    } else {
      var v, tail := Decode(bytes).value, Decode(bytes).rest;
      Canonical(bytes);
      CanonicalAll(tail, n - 1);
      var more := DecodeAll(tail, n - 1).value;
      assert vs == [v] + more && vs[1..] == more;
      assert EncodeAll(vs) + rest == Encode(v) + (EncodeAll(more) + rest);
      if bytes == EncodeAll(vs) + rest {
        RoundTrip(v, EncodeAll(more) + rest);
      }
    }
  }

  /** Setting a key that is there adds no entry. */
  lemma {:induction false} SetOld(es: seq<Entry>, key: Bytes, value: Variant)
    ensures |SetEntry(es, key, value)| == |es| + if Absent(es, key) then 1 else 0
  {
    if es != [] && es[0].key != key {
      SetOld(es[1..], key, value);
      assert Absent(es, key) <==> Absent(es[1..], key) by {
        assert forall i :: 0 <= i < |es[1..]| ==> es[1..][i] == es[i + 1];
      }
    }
  }

  /** If as many entries come out as were read, each was new and they follow those before. */
  lemma {:induction false} FullEntries(bytes: Bytes, n: nat, sofar: seq<Entry>)
    requires DecodeEntries(bytes, n, sofar).Ok? && |DecodeEntries(bytes, n, sofar).value| == |sofar| + n
    ensures sofar <= DecodeEntries(bytes, n, sofar).value
    ensures n > 0 ==> DecodeString(bytes).Ok? && Absent(sofar, DecodeString(bytes).value)
    decreases n
  {
    if n > 0 {
      var e := EntryOf(bytes, sofar);
      FullEntries(DecodeEntry(bytes, sofar).rest, n - 1, DecodeEntry(bytes, sofar).value);
      SetOld(sofar, e.key, e.value);
      SetNew(sofar, e.key, e.value);
    }
  }

  /** The entry that is read next. */
  lemma EntryOf(bytes: Bytes, sofar: seq<Entry>) returns (e: Entry)
    requires DecodeEntry(bytes, sofar).Ok?
    ensures DecodeString(bytes).Ok? && DecodeString(bytes).value == e.key && |e.key| < MAX_ARRAY_ALLOC_SIZE
    ensures Decode(DecodeString(bytes).rest).Ok? && Decode(DecodeString(bytes).rest).value == e.value
    ensures WellFormed(e.value)
    ensures DecodeEntry(bytes, sofar) == Ok(SetEntry(sofar, e.key, e.value), Decode(DecodeString(bytes).rest).rest)
  {
    e := Entry(DecodeString(bytes).value, Decode(DecodeString(bytes).rest).value);
  }

  /** One entry in front of others. */
  lemma CanonicalEntry(bytes: Bytes, sofar: seq<Entry>, e: Entry, left: Bytes)
    requires DecodeEntry(bytes, sofar).Ok? && DecodeString(bytes).Ok? && Decode(DecodeString(bytes).rest).Ok?
    requires e == Entry(DecodeString(bytes).value, Decode(DecodeString(bytes).rest).value) && Absent(sofar, e.key)
    ensures PlainEntry(bytes, sofar) && DecodeEntry(bytes, sofar).rest == left <==>
              bytes == EncodeString(e.key) + (Encode(e.value) + left)
    decreases |bytes|, 3
  {
    var body := DecodeString(bytes).rest;
    CanonicalString(bytes);
    Canonical(body);
    if bytes == EncodeString(e.key) + (Encode(e.value) + left) {
      StringRoundTrip(e.key, Encode(e.value) + left);
      RoundTrip(e.value, left);
    }
  }

  /** The bytes are those of the `n` entries that were read after the ones before. */
  ghost predicate Written(bytes: Bytes, n: nat, sofar: seq<Entry>, r: Result<seq<Entry>>)
    requires r.Ok?
  {
    |r.value| == |sofar| + n && sofar <= r.value && bytes == EncodeEntries(r.value[|sofar|..]) + r.rest
  }

  lemma {:induction false} CanonicalEntries(bytes: Bytes, n: nat, sofar: seq<Entry>)
    requires DecodeEntries(bytes, n, sofar).Ok?
    ensures PlainEntries(bytes, n, sofar) <==> Written(bytes, n, sofar, DecodeEntries(bytes, n, sofar))
    decreases |bytes|, 5
  {
    var r := DecodeEntries(bytes, n, sofar);
    if n == 0 {
      assert EncodeEntries(r.value[|sofar|..]) + r.rest == r.rest;
    } else {
      var more, tail := DecodeEntry(bytes, sofar).value, DecodeEntry(bytes, sofar).rest;
      NextEntry(bytes, n, sofar);
      CanonicalEntries(tail, n - 1, more);
      PlainFirst(bytes, n, sofar, more, tail);
      WrittenFirst(bytes, n, sofar, more, tail, r);
    }
  }

  /** Reading one entry, and then the others. */
  lemma WrittenFirst(bytes: Bytes, n: nat, sofar: seq<Entry>, more: seq<Entry>, tail: Bytes, r: Result<seq<Entry>>)
    requires n > 0 && DecodeEntry(bytes, sofar) == Ok(more, tail)
    requires r.Ok? && DecodeEntries(bytes, n, sofar) == r && DecodeEntries(tail, n - 1, more) == r
    ensures Written(bytes, n, sofar, r) <==> PlainEntry(bytes, sofar) && Written(tail, n - 1, more, r)
    decreases |bytes|, 4, 1
  {
    var e := EntryOf(bytes, sofar);
    if |r.value| == |sofar| + n {
      FullEntries(bytes, n, sofar);
      SetNew(sofar, e.key, e.value);
      FullEntries(tail, n - 1, more);
      CanonicalFirst(bytes, sofar, e, tail, r.value, r.rest);
    } else if Absent(sofar, e.key) {
      SetNew(sofar, e.key, e.value);
    }
  }

  lemma CanonicalFirst(bytes: Bytes, sofar: seq<Entry>, e: Entry, tail: Bytes, es: seq<Entry>, rest: Bytes)
    requires DecodeString(bytes).Ok? && Decode(DecodeString(bytes).rest).Ok?
    requires e == Entry(DecodeString(bytes).value, Decode(DecodeString(bytes).rest).value) && Absent(sofar, e.key)
    requires DecodeEntry(bytes, sofar) == Ok(sofar + [e], tail) && sofar + [e] <= es
    ensures PlainEntry(bytes, sofar) && tail == EncodeEntries(es[|sofar + [e]|..]) + rest <==>
              bytes == EncodeEntries(es[|sofar|..]) + rest
    decreases |bytes|, 4, 0
  {
    EntryInFront(es, sofar, e, rest);
    CanonicalEntry(bytes, sofar, e, EncodeEntries(es[|sofar| + 1..]) + rest);
  }

  lemma PlainFirst(bytes: Bytes, n: nat, sofar: seq<Entry>, more: seq<Entry>, tail: Bytes)
    requires n > 0 && DecodeEntry(bytes, sofar) == Ok(more, tail)
    ensures PlainEntries(bytes, n, sofar) <==> PlainEntry(bytes, sofar) && PlainEntries(tail, n - 1, more)
  {
  }

  lemma EntryInFront(es: seq<Entry>, sofar: seq<Entry>, e: Entry, rest: Bytes)
    requires sofar + [e] <= es
    ensures
      EncodeEntries(es[|sofar|..]) + rest ==
        EncodeString(e.key) + (Encode(e.value) + (EncodeEntries(es[|sofar| + 1..]) + rest))
  {
    var after := es[|sofar|..];
    assert after[0] == e && after[1..] == es[|sofar| + 1..];
    var a, b, c := EncodeString(e.key), Encode(e.value), EncodeEntries(after[1..]);
    assert EncodeEntries(after) == a + b + c;
    assert a + b + c + rest == a + (b + (c + rest));
  }

  lemma CanonicalObject(body: Bytes)
    requires DecodeObject(body).Ok?
    ensures
      var es, rest := DecodeObject(body).value, DecodeObject(body).rest;
      Plain([7] + body) <==> body == EncodeBody(Object(es)) + rest
    decreases |body|, 6
  {
    var n, tail := Varint.Decode(body).value, Varint.Decode(body).rest;
    var es, rest := DecodeObject(body).value, DecodeObject(body).rest;
    CanonicalEntries(tail, n, []);
    assert es[0..] == es;
    CountInFront(body, n, tail, EncodeEntries(es) + rest);
    PlainObject(body, n, tail);
    ObjectBody(es, rest);
    if |es| != n && body == Varint.Encode(|es|) + (EncodeEntries(es) + rest) {
      Varint.RoundTrip(|es|, EncodeEntries(es) + rest);
    }
  }

  lemma PlainObject(body: Bytes, n: uint32, tail: Bytes)
    requires Varint.Decode(body) == Ok(n, tail)
    ensures Plain([7] + body) <==> Least(body, 0) && PlainEntries(tail, n, [])
  {
    assert ([7] + body)[1..] == body;
  }

  lemma ObjectBody(es: seq<Entry>, rest: Bytes)
    requires |es| < 0x1_0000_0000
    ensures EncodeBody(Object(es)) + rest == Varint.Encode(|es|) + (EncodeEntries(es) + rest)
  {
    CountIsExact(|es|);
  }

  //  What is accepted besides

  /** The empty key with nothing at it. */
  lemma NullEntry(rest: Bytes, sofar: seq<Entry>)
    ensures DecodeString([0, 0] + rest) == Ok([], [0] + rest)
    ensures DecodeEntry([0, 0] + rest, sofar) == Ok(SetEntry(sofar, [], Null), rest)
  {
    var bytes := [0, 0] + rest;
    assert bytes[1..] == [0] + rest && ([0] + rest)[1..] == rest && ([0] + rest)[..0] == [];
    assert Varint.Decode(bytes) == Ok(0, [0] + rest);
    assert Decode([0] + rest) == Ok(Null, rest);
  }

  /** An object that repeats a key decodes to one with fewer entries. */
  lemma RepeatedKey(rest: Bytes, bytes: Bytes)
    requires bytes == [7] + ([2] + ([0, 0] + ([0, 0] + rest)))
    ensures Decode(bytes) == Ok(Object([Entry([], Null)]), rest) && !Plain(bytes)
  {
    var e := [Entry([], Null)];
    NullEntry([0, 0] + rest, []);
    NullEntry(rest, e);
    assert SetEntry(e, [], Null) == e by {
      assert [Entry([], Null)] + e[1..] == e;
    }
    assert DecodeEntries(rest, 0, e) == Ok(e, rest);
    assert DecodeEntries([0, 0] + rest, 1, e) == Ok(e, rest);
    TwoEntries(rest, [0, 0] + ([0, 0] + rest), e);
    TaggedObject([2] + ([0, 0] + ([0, 0] + rest)), e, rest);
    Canonical(bytes);
    ShortObject(e, rest);
  }

  lemma TwoEntries(rest: Bytes, entries: Bytes, e: seq<Entry>)
    requires DecodeEntry(entries, []).Ok? && DecodeEntry(entries, []).value == e
    requires DecodeEntries(DecodeEntry(entries, []).rest, 1, e) == Ok(e, rest)
    ensures DecodeObject([2] + entries) == Ok(e, rest)
  {
    CountOfTwo(entries);
    NextEntry(entries, 2, []);
    ObjectFrom([2] + entries, 2, entries, Ok(e, rest));
  }

  lemma CountOfTwo(entries: Bytes)
    ensures Varint.Decode([2] + entries) == Ok(2, entries)
  {
    assert ([2] + entries)[1..] == entries;
  }

  lemma NextEntry(bytes: Bytes, n: nat, sofar: seq<Entry>)
    requires n > 0 && DecodeEntry(bytes, sofar).Ok?
    ensures DecodeEntries(bytes, n, sofar) ==
      DecodeEntries(DecodeEntry(bytes, sofar).rest, n - 1, DecodeEntry(bytes, sofar).value)
  {
  }

  lemma ShortObject(e: seq<Entry>, rest: Bytes)
    requires e == [Entry([], Null)]
    ensures |Encode(Object(e)) + rest| == 4 + |rest|
  {
    CountIsExact(0);
    CountIsExact(1);
    assert EncodeString([]) == [0] && Encode(Null) == [0] && e[1..] == [];
    assert EncodeEntries(e[1..]) == [];
    assert EncodeEntries(e) == [0] + [0] + EncodeEntries(e[1..]);
    assert Varint.Encode(1) == [1];
    assert EncodeBody(Object(e)) == [1] + EncodeEntries(e);
  }
}
