/**
 The Bloom filter: a table of bits that over-approximates the set of keys put into
 it. Its abstract value is the set of bit numbers that are on.
 */
module Bloom {
  import opened RawTypes
  import opened Words

  //  The hash

  function Xor32(x: uint32, y: uint32): uint32 {
    XorNat(x, y) % 0x1_0000_0000
  }

  function Not32(x: uint32): uint32 {
    0xFFFF_FFFF - x
  }

  /** The bytes from `at` on, read as a little-endian integer of `n` bytes. */
  function Load(key: Bytes, at: nat, n: nat): nat
    requires at + n <= |key|
    decreases n
  {
    if n == 0 then 0 else key[at] + 256 * Load(key, at + 1, n - 1)
  }

  function Load32(key: Bytes, at: nat): uint32
    requires at + 4 <= |key|
  {
    Load(key, at, 4) % 0x1_0000_0000
  }

  /** `(hash << 7) ^ i * (hash >> 3)`, with the shifts as factors. */
  function MixMul(hash: uint32, i: uint32): uint32 {
    Xor32((hash * 128) % 0x1_0000_0000, (i * (hash / 8)) % 0x1_0000_0000)
  }

  /** `~((hash << 11) + (i ^ (hash >> 5)))` */
  function MixAdd(hash: uint32, i: uint32): uint32 {
    Not32((hash * 2048 + Xor32(i, hash / 32)) % 0x1_0000_0000)
  }

  /** One turn for a chunk of the tail: odd turns multiply, even turns add. */
  function TailTurn(hash: uint32, turn: nat, i: uint32): uint32 {
    Xor32(hash, if turn % 2 == 1 then MixMul(hash, i) else MixAdd(hash, i))
  }

  /** The hash of the last fewer than eight bytes, from `at` on: four of them, two and one. */
  function HashTail(key: Bytes, at: nat, hash: uint32): uint32
    requires at <= |key| < at + 8
  {
    if at + 4 <= |key| then HashPair(key, at + 4, TailTurn(hash, 0, Load32(key, at)), 1)
    else HashPair(key, at, hash, 0)
  }

  function HashPair(key: Bytes, at: nat, hash: uint32, turn: nat): uint32
    requires at <= |key| < at + 4
  {
    if at + 2 <= |key| then
      HashLast(key, at + 2, TailTurn(hash, turn, Load(key, at, 2) % 0x1_0000_0000), turn + 1)
    else HashLast(key, at, hash, turn)
  }

  function HashLast(key: Bytes, at: nat, hash: uint32, turn: nat): uint32
    requires at <= |key| < at + 2
  {
    if at < |key| then (hash + Xor32(key[at], (hash * 0xA5A5_A5A5) % 0x1_0000_0000) + turn) % 0x1_0000_0000
    else hash
  }

  function HashFrom(key: Bytes, at: nat, hash: uint32): uint32
    requires at <= |key|
    decreases |key| - at
  {
    if at + 8 <= |key| then
      HashFrom(key, at + 8,
               Xor32(hash, Xor32(MixMul(hash, Load32(key, at)), MixAdd(hash, Load32(key, at + 4)))))
    else HashTail(key, at, hash)
  }

  method HashAp(key: Bytes, salt: uint32) returns (hash: uint32)
    ensures hash == HashFrom(key, 0, salt)
  {
    hash := salt;
    var at := 0;
    while |key| - at >= 8
      invariant at <= |key| && HashFrom(key, at, hash) == HashFrom(key, 0, salt)
      decreases |key| - at
    {
      hash := Xor32(hash, Xor32(MixMul(hash, Load32(key, at)), MixAdd(hash, Load32(key, at + 4))));
      at := at + 8;
    }
    hash := HashTail(key, at, hash);
  }

  //  Salts

  const PREDEF_SALT: seq<uint32> := [
    0xAAAA_AAAA, 0x5555_5555, 0x3333_3333, 0xCCCC_CCCC, 0x6666_6666, 0x9999_9999, 0xB5B5_B5B5, 0x4B4B_4B4B,
    0xAA55_AA55, 0x5533_5533, 0x33CC_33CC, 0xCC66_CC66, 0x6699_6699, 0x99B5_99B5, 0xB54B_B54B, 0x4BAA_4BAA,
    0xAA33_AA33, 0x55CC_55CC, 0x3366_3366, 0xCC99_CC99, 0x66B5_66B5, 0x994B_994B, 0xB5AA_B5AA, 0xAAAA_AA33,
    0x5555_55CC, 0x3333_3366, 0xCCCC_CC99, 0x6666_66B5, 0x9999_994B, 0xB5B5_B5AA, 0xFFFF_FFFF, 0xFFFF_0000,
    0xB823_D5EB, 0xC119_1CDF, 0xF623_AEB3, 0xDB58_499F, 0xC8D4_2E70, 0xB173_F616, 0xA91A_5967, 0xDA42_7D63,
    0xB1E8_A2EA, 0xF6C0_D155, 0x4909_FEA3, 0xA68C_C6A7, 0xC395_E782, 0xA260_57EB, 0x0CD5_DA28, 0x467C_5492,
    0xF15E_6982, 0x61C6_FAD3, 0x9615_E352, 0x6E9E_355A, 0x689B_563E, 0x0C98_31A8, 0x6753_C18B, 0xA622_689B,
    0x8CA6_3C47, 0x42CC_2884, 0x8E89_919B, 0x6EDB_D7D3, 0x15B6_796C, 0x1D6F_DFE4, 0x63FF_9092, 0xE740_1432,
    0xEFFE_9412, 0xAEAE_DF79, 0x9F24_5A31, 0x83C1_36FC, 0xC3DA_4A8C, 0xA511_2C8C, 0x5271_F491, 0x9A94_8DAB,
    0xCEE5_9A8D, 0xB5F5_25AB, 0x59D1_3217, 0x24E7_C331, 0x697C_2103, 0x84B0_A460, 0x8615_6DA9, 0xAEF2_AC68,
    0x2324_3DA5, 0x3F64_9643, 0x5FA4_95A8, 0x6771_0DF8, 0x9A6C_499E, 0xDCFB_0227, 0x46A4_3433, 0x1832_B07A,
    0xC46A_FF3C, 0xB9C8_FFF0, 0xC950_0467, 0x3443_1BDF, 0xB652_432B, 0xE367_F12B, 0x427F_4C1B, 0x224C_006E,
    0x2E7E_5A89, 0x96F9_9AA5, 0x0BEB_452A, 0x2FD8_7C39, 0x74B2_E1FB, 0x222E_FD24, 0xF357_F60C, 0x440F_CB1E,
    0x8BBE_030F, 0x6704_DC29, 0x1144_D12F, 0x948B_1355, 0x6D8F_D7E9, 0x1C11_A014, 0xADD1_592F, 0xFB3C_712E,
    0xFC77_642F, 0xF9C4_CE8C, 0x3131_2FB9, 0x08B0_DD79, 0x318F_A6E7, 0xC040_D23D, 0xC058_9AA7, 0x0CA5_C075,
    0xF874_B172, 0x0CF9_14D5, 0x784D_3280, 0x4E8C_FEBC, 0xC569_F575, 0xCDB2_A091, 0x2CC0_16B4, 0x5C5F_4421
  ]

  /** The in-place mixing loop from index `i` on; later salts mix with already mixed ones. */
  function MixSalts(salt: seq<uint32>, i: nat, seed: uint64): (mixed: seq<uint32>)
    ensures |mixed| == |salt|
    decreases |salt| - i
  {
    if i >= |salt| then salt
    else MixSalts(salt[i := (salt[i] * salt[(i + 3) % |salt|] + seed) % 0x1_0000_0000], i + 1, seed)
  }

  function Salts(count: nat, seed: uint64): seq<uint32>
    requires count <= |PREDEF_SALT|
  {
    MixSalts(PREDEF_SALT[..count], 0, seed)
  }

  method GenerateUniqueSalt(count: nat, seed: uint64) returns (salt: seq<uint32>)
    requires count <= |PREDEF_SALT|
    ensures salt == Salts(count, seed)
  {
    salt := PREDEF_SALT[..count];
    var i := 0;
    while i < |salt|
      invariant 0 <= i <= |salt| && MixSalts(salt, i, seed) == Salts(count, seed)
    {
      salt := salt[i := (salt[i] * salt[(i + 3) % |salt|] + seed) % 0x1_0000_0000];
      i := i + 1;
    }
  }

  //  Bit tables

  /** The numbers of the bits that are on. */
  ghost function BitsOf(table: seq<Byte>): set<nat> {
    set b: nat | b < 8 * |table| && table[b / 8][b % 8]
  }

  lemma SetBit(table: seq<Byte>, b: nat)
    requires b < 8 * |table|
    ensures BitsOf(table[b / 8 := Or(table[b / 8], Bit(8, b % 8))]) == BitsOf(table) + {b}
  {
    var t := table[b / 8 := Or(table[b / 8], Bit(8, b % 8))];
    forall x: nat | x < 8 * |table|
      ensures t[x / 8][x % 8] == (table[x / 8][x % 8] || x == b)
    {
      assert x / 8 == b / 8 && x % 8 == b % 8 ==> x == b;
    }
  }

  /** A table is determined by its bits. */
  lemma BitsDetermineTable(t: seq<Byte>, u: seq<Byte>)
    requires |t| == |u| && BitsOf(t) == BitsOf(u)
    ensures t == u
  {
    forall i | 0 <= i < |t| ensures t[i] == u[i] {
      forall k | 0 <= k < 8 ensures t[i][k] == u[i][k] {
        var b: nat := 8 * i + k;
        assert b / 8 == i && b % 8 == k;
        assert b in BitsOf(t) <==> b in BitsOf(u);
      }
    }
  }

  lemma MaskTest(cell: Byte, k: nat)
    requires k < 8
    ensures And(cell, Bit(8, k)) == Bit(8, k) <==> cell[k]
  {
    var m := And(cell, Bit(8, k));
    assert m[k] == cell[k];
  }

  //  Keys

  /** The bits that stand for `key`. */
  function KeyBits(salt: seq<uint32>, tableSize: nat, key: Bytes): (bits: set<nat>)
    requires tableSize > 0
  {
    set i | 0 <= i < |salt| :: HashFrom(key, 0, salt[i]) % tableSize
  }

  /** The bits that stand for any of `keys`; their order and multiplicity leave no trace. */
  ghost function KeysBits(salt: seq<uint32>, tableSize: nat, keys: set<Bytes>): set<nat>
    requires tableSize > 0
  {
    set key, b | key in keys && b in KeyBits(salt, tableSize, key) :: b
  }

  lemma KeysBitsUnion(salt: seq<uint32>, tableSize: nat, a: set<Bytes>, b: set<Bytes>)
    requires tableSize > 0
    ensures KeysBits(salt, tableSize, a + b) == KeysBits(salt, tableSize, a) + KeysBits(salt, tableSize, b)
  {
  }

  /** Sizes in bits for which the bytes allocated cover every index. */
  predicate Indexable(tableSize: nat) {
    tableSize > 0 && (tableSize % 8 == 0 || tableSize > 0x1_0000_0000)
  }

  /** Every hash lands inside the table exactly when the size is a multiple of eight or
      above all hashes. */
  lemma IndexInRange(tableSize: nat)
    requires tableSize > 0
    ensures (forall hash: uint32 :: (hash % tableSize) / 8 < tableSize / 8) <==> Indexable(tableSize)
  {
    if Indexable(tableSize) {
      forall hash: uint32 ensures (hash % tableSize) / 8 < tableSize / 8 {
        IndexAt(tableSize, hash);
      }
    } else {
      var last: uint32 := tableSize - 1;
      EuclideanUnique(last, tableSize, 0, last);
      assert !((last % tableSize) / 8 < tableSize / 8);
    }
  }

  /** So a table of twelve bits, which is one byte, is indexed past its end. */
  lemma IndexPastEnd()
    ensures !Indexable(12) && var hash: uint32 := 11; (hash % 12) / 8 == 1 == 12 / 8
  {
  }

  lemma IndexAt(tableSize: nat, hash: uint32)
    requires Indexable(tableSize)
    ensures hash % tableSize < 8 * (tableSize / 8) && (hash % tableSize) / 8 < tableSize / 8
  {
    if tableSize > 0x1_0000_0000 {
      EuclideanUnique(hash, tableSize, 0, hash);
    }
    InsideTable(tableSize, hash % tableSize);
  }

  lemma InsideTable(tableSize: nat, index: nat)
    requires Indexable(tableSize) && index < tableSize && index < 0x1_0000_0000
    ensures index < 8 * (tableSize / 8) && index / 8 < tableSize / 8
  {
  }

  class BloomFilter {
    const saltCount: nat
    const tableSize: nat
    const randomSeed: uint64
    const salt: seq<uint32>
    const table: array<Byte>
    var insertedCount: uint32
    /** The keys put in, directly or with a merged filter, since the last clear. */
    ghost var members: set<Bytes>

    ghost predicate Valid()
      reads this, table
    {
      && saltCount <= |PREDEF_SALT| && salt == Salts(saltCount, randomSeed)
      && Indexable(tableSize) && table.Length == tableSize / 8
      && KeysBits(salt, tableSize, members) <= Bits()
    }

    ghost function Bits(): set<nat>
      reads table
    {
      BitsOf(table[..])
    }

    /** Built with the same parameters, as the operators check. */
    predicate Compatible(f: BloomFilter) {
      saltCount == f.saltCount && tableSize == f.tableSize && randomSeed == f.randomSeed
    }

    constructor (numberOfHashes: nat, tableSize: nat, seed: uint64)
      requires numberOfHashes <= |PREDEF_SALT| && Indexable(tableSize)
      ensures Valid() && Bits() == {} && members == {} && insertedCount == 0 && fresh(table)
      ensures this.saltCount == numberOfHashes && this.tableSize == tableSize
      ensures this.randomSeed == (seed * 0xA5A5_A5A5 + 1) % 0x1_0000_0000_0000_0000
    {
      var mixed: uint64 := (seed * 0xA5A5_A5A5 + 1) % 0x1_0000_0000_0000_0000;
      saltCount, this.tableSize, randomSeed := numberOfHashes, tableSize, mixed;
      var generated := GenerateUniqueSalt(numberOfHashes, mixed);
      salt := generated;
      table := new Byte[tableSize / 8](i => Zeros(8));
      insertedCount, members := 0, {};
      new;
      NoBits(table[..]);
    }

    method Clear()
      requires Valid()
      modifies this, table
      ensures Valid() && Bits() == {} && members == {} && insertedCount == 0
    {
      for i := 0 to table.Length
        modifies table
        invariant forall j :: 0 <= j < i ==> table[j] == Zeros(8)
      {
        table[i] := Zeros(8);
      }
      insertedCount, members := 0, {};
      NoBits(table[..]);
    }

    method ComputeIndex(hash: uint32) returns (bitIndex: nat)
      requires Indexable(tableSize)
      ensures bitIndex == hash % tableSize && bitIndex < 8 * (tableSize / 8) && bitIndex / 8 < tableSize / 8
    {
      IndexAt(tableSize, hash);
      bitIndex := hash % tableSize;
    }

    method Insert(key: Bytes)
      requires Valid()
      modifies this, table
      ensures Valid() && members == old(members) + {key}
      ensures Bits() == old(Bits()) + KeyBits(salt, tableSize, key)
      ensures insertedCount == (old(insertedCount) + 1) % 0x1_0000_0000
    {
      for i := 0 to |salt|
        modifies table
        invariant Bits() == old(Bits()) + KeyBits(salt[..i], tableSize, key)
      {
        var hash := HashAp(key, salt[i]);
        var bitIndex := ComputeIndex(hash);
        SetBit(table[..], bitIndex);
        MoreSalt(salt, i, tableSize, key);
        ghost var next := table[..][bitIndex / 8 := Or(table[bitIndex / 8], Bit(8, bitIndex % 8))];
        table[bitIndex / 8] := Or(table[bitIndex / 8], Bit(8, bitIndex % 8));
        assert table[..] == next;
      }
      assert salt[..|salt|] == salt;
      insertedCount := (insertedCount + 1) % 0x1_0000_0000;
      KeysBitsUnion(salt, tableSize, members, {key});
      OneKeyBits(salt, tableSize, key);
      members := members + {key};
    }

    /** Says whether all bits of `key` are on; so never no for a key that was put in. */
    method Contains(key: Bytes) returns (found: bool)
      requires Valid()
      ensures found <==> KeyBits(salt, tableSize, key) <= Bits()
      ensures key in members ==> found
    {
      MemberBits(salt, tableSize, members, key);
      for i := 0 to |salt|
        invariant KeyBits(salt[..i], tableSize, key) <= Bits()
      {
        var hash := HashAp(key, salt[i]);
        var bitIndex := ComputeIndex(hash);
        MaskTest(table[bitIndex / 8], bitIndex % 8);
        MoreSalt(salt, i, tableSize, key);
        if And(table[bitIndex / 8], Bit(8, bitIndex % 8)) != Bit(8, bitIndex % 8) {
          SomeSalt(salt, i, tableSize, key);
          assert bitIndex !in Bits();
          return false;
        }
      }
      assert salt[..|salt|] == salt;
      return true;
    }

    /** `|=`; a filter built with other parameters is ignored. */
    method UnionWith(f: BloomFilter)
      requires Valid() && f.Valid()
      modifies this, table
      ensures Valid()
      ensures Compatible(f) ==> Bits() == old(Bits()) + old(f.Bits()) && members == old(members) + old(f.members)
      ensures !Compatible(f) ==> table[..] == old(table[..]) && members == old(members)
    {
      if Compatible(f) {
        for i := 0 to table.Length
          modifies table
          invariant forall j :: 0 <= j < i ==> table[j] == Or(old(table[j]), old(f.table[j]))
          invariant forall j :: i <= j < table.Length ==> table[j] == old(table[j]) && f.table[j] == old(f.table[j])
        {
          table[i] := Or(table[i], f.table[i]);
        }
        UnionBits(old(table[..]), old(f.table[..]), table[..]);
        KeysBitsUnion(salt, tableSize, members, f.members);
        members := members + f.members;
      }
    }

    /** `&=`; a filter built with other parameters is ignored. */
    method IntersectWith(f: BloomFilter)
      requires Valid() && f.Valid()
      modifies this, table
      ensures Valid()
      ensures Compatible(f) ==> Bits() == old(Bits()) * old(f.Bits()) && members == old(members) * old(f.members)
      ensures !Compatible(f) ==> table[..] == old(table[..]) && members == old(members)
    {
      if Compatible(f) {
        for i := 0 to table.Length
          modifies table
          invariant forall j :: 0 <= j < i ==> table[j] == And(old(table[j]), old(f.table[j]))
          invariant forall j :: i <= j < table.Length ==> table[j] == old(table[j]) && f.table[j] == old(f.table[j])
        {
          table[i] := And(table[i], f.table[i]);
        }
        IntersectBits(old(table[..]), old(f.table[..]), table[..]);
        CommonBits(salt, tableSize, members, f.members);
        members := members * f.members;
      }
    }
  }

  lemma NoBits(t: seq<Byte>)
    requires forall i :: 0 <= i < |t| ==> t[i] == Zeros(8)
    ensures BitsOf(t) == {}
  {
  }

  lemma UnionBits(a: seq<Byte>, b: seq<Byte>, t: seq<Byte>)
    requires |a| == |b| == |t| && forall i :: 0 <= i < |t| ==> t[i] == Or(a[i], b[i])
    ensures BitsOf(t) == BitsOf(a) + BitsOf(b)
  {
    forall x: nat | x < 8 * |t| ensures t[x / 8][x % 8] == (a[x / 8][x % 8] || b[x / 8][x % 8]) {
    }
  }

  lemma IntersectBits(a: seq<Byte>, b: seq<Byte>, t: seq<Byte>)
    requires |a| == |b| == |t| && forall i :: 0 <= i < |t| ==> t[i] == And(a[i], b[i])
    ensures BitsOf(t) == BitsOf(a) * BitsOf(b)
  {
    forall x: nat | x < 8 * |t| ensures t[x / 8][x % 8] == (a[x / 8][x % 8] && b[x / 8][x % 8]) {
    }
  }

  lemma MoreSalt(salt: seq<uint32>, i: nat, tableSize: nat, key: Bytes)
    requires tableSize > 0 && i < |salt|
    ensures KeyBits(salt[..i + 1], tableSize, key)
         == KeyBits(salt[..i], tableSize, key) + {HashFrom(key, 0, salt[i]) % tableSize}
  {
    var more, less := KeyBits(salt[..i + 1], tableSize, key), KeyBits(salt[..i], tableSize, key);
    forall b | b in less ensures b in more {
      var j :| 0 <= j < i && b == HashFrom(key, 0, salt[..i][j]) % tableSize;
      assert salt[..i + 1][j] == salt[..i][j];
    }
    forall b | b in more && b != HashFrom(key, 0, salt[i]) % tableSize ensures b in less {
      var j :| 0 <= j < i + 1 && b == HashFrom(key, 0, salt[..i + 1][j]) % tableSize;
      assert salt[..i][j] == salt[..i + 1][j];
    }
    assert salt[..i + 1][i] == salt[i];
  }

  lemma SomeSalt(salt: seq<uint32>, i: nat, tableSize: nat, key: Bytes)
    requires tableSize > 0 && i < |salt|
    ensures HashFrom(key, 0, salt[i]) % tableSize in KeyBits(salt, tableSize, key)
  {
  }

  lemma OneKeyBits(salt: seq<uint32>, tableSize: nat, key: Bytes)
    requires tableSize > 0
    ensures KeysBits(salt, tableSize, {key}) == KeyBits(salt, tableSize, key)
  {
  }

  lemma MemberBits(salt: seq<uint32>, tableSize: nat, members: set<Bytes>, key: Bytes)
    requires tableSize > 0
    ensures key in members ==> KeyBits(salt, tableSize, key) <= KeysBits(salt, tableSize, members)
  {
  }

  lemma CommonBits(salt: seq<uint32>, tableSize: nat, a: set<Bytes>, b: set<Bytes>)
    requires tableSize > 0
    ensures KeysBits(salt, tableSize, a * b) <= KeysBits(salt, tableSize, a) * KeysBits(salt, tableSize, b)
  {
  }

  ghost function KeySet(keys: seq<Bytes>): set<Bytes> {
    set k | k in keys
  }

  /** One key more, with its bits. */
  lemma NextKey(salt: seq<uint32>, tableSize: nat, keys: seq<Bytes>, i: nat)
    requires tableSize > 0 && i < |keys|
    ensures KeySet(keys[..i + 1]) == KeySet(keys[..i]) + {keys[i]}
    ensures KeysBits(salt, tableSize, KeySet(keys[..i + 1])) == KeysBits(salt, tableSize, KeySet(keys[..i])) + KeyBits(salt, tableSize, keys[i])
  {
    assert keys[..i + 1] == keys[..i] + [keys[i]];
    KeysBitsUnion(salt, tableSize, KeySet(keys[..i]), {keys[i]});
    OneKeyBits(salt, tableSize, keys[i]);
  }

  /** Inserts a sequence of keys one after the other. */
  method InsertAll(f: BloomFilter, keys: seq<Bytes>)
    requires f.Valid()
    modifies f, f.table
    ensures f.Valid() && f.members == old(f.members) + KeySet(keys)
    ensures f.Bits() == old(f.Bits()) + KeysBits(f.salt, f.tableSize, KeySet(keys))
  {
    for i := 0 to |keys|
      invariant f.Valid() && f.members == old(f.members) + KeySet(keys[..i])
      invariant f.Bits() == old(f.Bits()) + KeysBits(f.salt, f.tableSize, KeySet(keys[..i]))
    {
      f.Insert(keys[i]);
      NextKey(f.salt, f.tableSize, keys, i);
    }
    assert keys[..|keys|] == keys;
  }

  /** A fresh filter with the keys put in. */
  method Filled(hashes: nat, tableSize: nat, seed: uint64, keys: seq<Bytes>) returns (f: BloomFilter)
    requires hashes <= |PREDEF_SALT| && Indexable(tableSize)
    ensures fresh(f) && fresh(f.table) && f.Valid()
    ensures f.saltCount == hashes && f.tableSize == tableSize
    ensures f.randomSeed == (seed * 0xA5A5_A5A5 + 1) % 0x1_0000_0000_0000_0000
    ensures f.members == KeySet(keys) && f.Bits() == KeysBits(f.salt, tableSize, KeySet(keys))
  {
    f := new BloomFilter(hashes, tableSize, seed);
    InsertAll(f, keys);
  }

  /**
   Merging two filters gives bit for bit the table of one filter that took both
   sequences of keys, in any order and any number of times.
   */
  method MergeIsInsertion(hashes: nat, tableSize: nat, seed: uint64, a: seq<Bytes>, b: seq<Bytes>, both: seq<Bytes>)
    returns (merged: BloomFilter, direct: BloomFilter)
    requires hashes <= |PREDEF_SALT| && Indexable(tableSize)
    requires KeySet(both) == KeySet(a) + KeySet(b)
    ensures merged.table[..] == direct.table[..]
    ensures merged.Valid() && direct.Valid() && merged.members == direct.members
  {
    merged := Filled(hashes, tableSize, seed, a);
    var other := Filled(hashes, tableSize, seed, b);
    merged.UnionWith(other);
    direct := Filled(hashes, tableSize, seed, both);
    KeysBitsUnion(direct.salt, tableSize, KeySet(a), KeySet(b));
    BitsDetermineTable(merged.table[..], direct.table[..]);
  }
}
