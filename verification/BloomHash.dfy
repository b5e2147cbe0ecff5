/**
 What the hash of the Bloom filter tells apart, and its values for short keys.
 */
module BloomHash {
  import opened RawTypes
  import opened Words
  import opened Bloom
  import Varint

  //  Steps that lose nothing

  lemma {:induction false} XorCancels(a: nat, b: nat, c: nat)
    requires XorNat(a, c) == XorNat(b, c)
    ensures a == b
    decreases a + b + c
  {
    if a + b > 0 {
      XorParts(a, c);
      XorParts(b, c);
      XorCancels(a / 2, b / 2, c / 2);
    }
  }

  lemma XorParts(a: nat, c: nat)
    ensures XorNat(a, c) % 2 == (if (a % 2 == 1) != (c % 2 == 1) then 1 else 0)
    ensures XorNat(a, c) / 2 == XorNat(a / 2, c / 2)
  {
  }

  lemma {:induction false} XorCommutes(a: nat, c: nat)
    ensures XorNat(a, c) == XorNat(c, a)
    decreases a + c
  {
    if a + c > 0 {
      XorParts(a, c);
      XorParts(c, a);
      XorCommutes(a / 2, c / 2);
    }
  }

  lemma Xor32Is(x: uint32, y: uint32)
    ensures Xor32(x, y) == XorNat(x, y) == Xor32(y, x)
  {
    Varint.Pow2Of32();
    XorNatBound(32, x, y);
    XorCommutes(x, y);
  }

  lemma Xor32Cancels(x: uint32, y: uint32, c: uint32)
    requires x != y
    ensures Xor32(x, c) != Xor32(y, c) && Xor32(c, x) != Xor32(c, y)
  {
    Xor32Is(x, c);
    Xor32Is(y, c);
    if XorNat(x, c) == XorNat(y, c) {
      XorCancels(x, y, c);
    }
  }

  lemma AddCancels(x: uint32, y: uint32, c: nat)
    ensures (c + x) % 0x1_0000_0000 == (c + y) % 0x1_0000_0000 <==> x == y
  {
    if (c + x) % 0x1_0000_0000 == (c + y) % 0x1_0000_0000 {
      var p, q := (c + x) / 0x1_0000_0000, (c + y) / 0x1_0000_0000;
      assert x - y == 0x1_0000_0000 * (p - q);
    }
  }

  lemma MixAddCancels(hash: uint32, x: uint32, y: uint32)
    requires x != y
    ensures MixAdd(hash, x) != MixAdd(hash, y)
  {
    var c := hash / 32;
    Xor32Cancels(x, y, c);
    AddCancels(Xor32(x, c), Xor32(y, c), hash * 2048);
  }

  //  Loads

  lemma {:induction false} LoadBound(key: Bytes, at: nat, n: nat)
    requires at + n <= |key|
    ensures Load(key, at, n) < Pow2(8 * n)
    decreases n
  {
    if n > 0 {
      LoadBound(key, at + 1, n - 1);
      EightMore(n - 1);
    }
  }

  lemma EightMore(n: nat)
    ensures Pow2(8 * (n + 1)) == 256 * Pow2(8 * n)
  {
    var m := 8 * n;
    assert Pow2(m + 8) == 2 * Pow2(m + 7) == 4 * Pow2(m + 6) == 8 * Pow2(m + 5) == 16 * Pow2(m + 4);
    assert Pow2(m + 4) == 2 * Pow2(m + 3) == 4 * Pow2(m + 2) == 8 * Pow2(m + 1) == 16 * Pow2(m);
  }

  /** Bytes that differ somewhere load to different integers, equal bytes to the same. */
  lemma {:induction false} LoadTells(a: Bytes, b: Bytes, at: nat, n: nat)
    requires at + n <= |a| && |a| == |b|
    ensures Load(a, at, n) == Load(b, at, n) <==> forall i :: at <= i < at + n ==> a[i] == b[i]
    decreases n
  {
    if n > 0 {
      LoadTells(a, b, at + 1, n - 1);
      SameFirst(a[at], b[at], Load(a, at + 1, n - 1), Load(b, at + 1, n - 1));
    }
  }

  lemma SameFirst(x: Octet, y: Octet, p: nat, q: nat)
    ensures x + 256 * p == y + 256 * q <==> x == y && p == q
  {
  }

  lemma WordTells(a: Bytes, b: Bytes, at: nat, n: nat)
    requires n <= 4 && at + n <= |a| && |a| == |b|
    ensures Load(a, at, n) % 0x1_0000_0000 == Load(b, at, n) % 0x1_0000_0000 <==>
              forall i :: at <= i < at + n ==> a[i] == b[i]
  {
    LoadFits(a, at, n);
    LoadFits(b, at, n);
    LoadTells(a, b, at, n);
  }

  lemma LoadFits(key: Bytes, at: nat, n: nat)
    requires n <= 4 && at + n <= |key|
    ensures Load(key, at, n) % 0x1_0000_0000 == Load(key, at, n)
  {
    LoadBound(key, at, n);
    Varint.Pow2Of32();
    Varint.Pow2Monotone(8 * n, 32);
  }

  //  Keys told apart by their end

  /** How many bytes at the end of a key every change of which changes the hash: the last odd
      byte, or the last chunk if it is the one that is added and not multiplied. */
  function TellingEnd(n: nat): (w: nat)
    ensures w <= n
  {
    if n > 8 then TellingEnd(n - 8)
    else if n == 8 || n == 4 then 4
    else if n == 2 then 2
    else if n == 0 || n == 6 then 0
    else 1
  }

  /** Different keys of one length, but equal except for the last `w` bytes. */
  predicate DifferAtEnd(a: Bytes, b: Bytes, w: nat) {
    |a| == |b| && a != b && w <= |a| && forall i :: 0 <= i < |a| - w ==> a[i] == b[i]
  }

  /** Keys of one length that are equal but for their end have different hashes, for every salt. */
  lemma HashTellsEnd(a: Bytes, b: Bytes, salt: uint32)
    requires DifferAtEnd(a, b, TellingEnd(|a|))
    ensures HashFrom(a, 0, salt) != HashFrom(b, 0, salt)
  {
    EndFrom(a, b, 0, salt, |a|, TellingEnd(|a|), HashFrom(a, 0, salt), HashFrom(b, 0, salt));
  }

  /** The same from a chunk on, with `left` bytes to come. */
  lemma {:induction false} EndFrom(a: Bytes, b: Bytes, at: nat, hash: uint32, left: nat, w: nat, x: uint32, y: uint32)
    requires DifferAtEnd(a, b, w) && |a| == at + left && w == TellingEnd(left)
    requires x == HashFrom(a, at, hash) && y == HashFrom(b, at, hash)
    ensures x != y
    decreases left
  {
    if left > 8 {
      var next := SameChunk(a, b, at, hash, w, x, y);
      EndFrom(a, b, at + 8, next, left - 8, w, x, y);
    } else {
      LastTellsAll(a, b, at, hash, left, w, x, y);
    }
  }

  lemma LastTellsAll(a: Bytes, b: Bytes, at: nat, hash: uint32, left: nat, w: nat, x: uint32, y: uint32)
    requires DifferAtEnd(a, b, w) && |a| == at + left && w == TellingEnd(left) && left <= 8
    requires x == HashFrom(a, at, hash) && y == HashFrom(b, at, hash)
    ensures x != y
  {
    if left == 8 {
      LastChunk(a, b, at, hash);
    } else {
      OnlyTailTells(a, b, at, hash, left, w);
    }
  }

  lemma OnlyTailTells(a: Bytes, b: Bytes, at: nat, hash: uint32, left: nat, w: nat)
    requires DifferAtEnd(a, b, w) && |a| == at + left && w == TellingEnd(left) && left < 8
    ensures HashFrom(a, at, hash) != HashFrom(b, at, hash)
  {
    TailEndIs(a, b, left, w);
    TailTells(a, b, at, hash, left, w);
    OnlyTail(a, at, hash);
    OnlyTail(b, at, hash);
  }

  lemma OnlyTail(key: Bytes, at: nat, hash: uint32)
    requires at <= |key| < at + 8
    ensures HashFrom(key, at, hash) == HashTail(key, at, hash)
  {
  }

  lemma SameChunk(a: Bytes, b: Bytes, at: nat, hash: uint32, w: nat, x: uint32, y: uint32) returns (next: uint32)
    requires DifferAtEnd(a, b, w) && at + 8 + w <= |a|
    requires x == HashFrom(a, at, hash) && y == HashFrom(b, at, hash)
    ensures x == HashFrom(a, at + 8, next) && y == HashFrom(b, at + 8, next)
  {
    WordTells(a, b, at, 4);
    WordTells(a, b, at + 4, 4);
    next := Chunk(hash, Load32(a, at), Load32(a, at + 4));
    OneChunk(a, at, hash, next);
    OneChunk(b, at, hash, next);
  }

  /** Eight bytes at once: the first four are multiplied and the others added. */
  function Chunk(hash: uint32, x: uint32, y: uint32): uint32 {
    Xor32(hash, Xor32(MixMul(hash, x), MixAdd(hash, y)))
  }

  lemma OneChunk(key: Bytes, at: nat, hash: uint32, next: uint32)
    requires at + 8 <= |key| && next == Chunk(hash, Load32(key, at), Load32(key, at + 4))
    ensures HashFrom(key, at, hash) == HashFrom(key, at + 8, next)
  {
  }

  lemma ChunkCancels(hash: uint32, i: uint32, x: uint32, y: uint32)
    requires x != y
    ensures Chunk(hash, i, x) != Chunk(hash, i, y)
  {
    var m, p, q := MixMul(hash, i), MixAdd(hash, x), MixAdd(hash, y);
    MixAddCancels(hash, x, y);
    Xor32Cancels(p, q, m);
    Xor32Cancels(Xor32(m, p), Xor32(m, q), hash);
  }

  lemma LastChunk(a: Bytes, b: Bytes, at: nat, hash: uint32)
    requires DifferAtEnd(a, b, 4) && |a| == at + 8
    ensures HashFrom(a, at, hash) != HashFrom(b, at, hash)
  {
    WordTells(a, b, at, 4);
    WordTells(a, b, at + 4, 4);
    EndsDiffer(a, b, 4);
    var x, y := Load32(a, at + 4), Load32(b, at + 4);
    ChunkCancels(hash, Load32(a, at), x, y);
    ChunkIsAll(a, at, hash);
    ChunkIsAll(b, at, hash);
  }

  lemma ChunkIsAll(key: Bytes, at: nat, hash: uint32)
    requires at + 8 == |key|
    ensures HashFrom(key, at, hash) == Chunk(hash, Load32(key, at), Load32(key, at + 4))
  {
    OneChunk(key, at, hash, Chunk(hash, Load32(key, at), Load32(key, at + 4)));
  }

  lemma EndsDiffer(a: Bytes, b: Bytes, w: nat)
    requires DifferAtEnd(a, b, w)
    ensures exists i :: |a| - w <= i < |a| && a[i] != b[i]
  {
  }

  lemma TailTells(a: Bytes, b: Bytes, at: nat, hash: uint32, left: nat, w: nat)
    requires DifferAtEnd(a, b, w) && |a| == at + left
    requires w == TellingEnd(left) && 0 < left < 8 && left != 6
    ensures HashTail(a, at, hash) != HashTail(b, at, hash)
  {
    if left >= 4 {
      FourTells(a, b, at, hash, w);
    } else {
      PairTells(a, b, at, hash, 0);
    }
  }

  lemma TailEndIs(a: Bytes, b: Bytes, left: nat, w: nat)
    requires DifferAtEnd(a, b, w) && w == TellingEnd(left) && left < 8
    ensures 0 < left && left != 6
  {
    EndsDiffer(a, b, w);
  }

  lemma FourTells(a: Bytes, b: Bytes, at: nat, hash: uint32, w: nat)
    requires DifferAtEnd(a, b, w) && at + 4 <= |a| < at + 8 && (|a| == at + 4 || w == 1) && w <= 4
    requires |a| != at + 6
    ensures HashTail(a, at, hash) != HashTail(b, at, hash)
  {
    WordTells(a, b, at, 4);
    if |a| == at + 4 {
      EndsDiffer(a, b, w);
      TurnCancels(hash, Load32(a, at), Load32(b, at));
    } else {
      PairTells(a, b, at + 4, TailTurn(hash, 0, Load32(a, at)), 1);
    }
  }

  /** With four bytes gone, two more are multiplied in and tell nothing. */
  lemma PairTells(a: Bytes, b: Bytes, at: nat, hash: uint32, turn: nat)
    requires at < |a| < at + 4 && if |a| == at + 2 then turn == 0 && DifferAtEnd(a, b, 2) else DifferAtEnd(a, b, 1)
    ensures HashPair(a, at, hash, turn) != HashPair(b, at, hash, turn)
  {
    if |a| == at + 1 {
      LastTells(a, b, at, hash, turn);
    } else {
      WordTells(a, b, at, 2);
      var x, y := Load(a, at, 2) % 0x1_0000_0000, Load(b, at, 2) % 0x1_0000_0000;
      if |a| == at + 2 {
        EndsDiffer(a, b, 2);
        TurnCancels(hash, x, y);
      } else {
        LastTells(a, b, at + 2, TailTurn(hash, turn, x), turn + 1);
      }
    }
  }

  lemma LastTells(a: Bytes, b: Bytes, at: nat, hash: uint32, turn: nat)
    requires DifferAtEnd(a, b, 1) && |a| == at + 1
    ensures HashLast(a, at, hash, turn) != HashLast(b, at, hash, turn)
  {
    var x, y, c := a[at], b[at], (hash * 0xA5A5_A5A5) % 0x1_0000_0000;
    EndsDiffer(a, b, 1);
    Xor32Cancels(x, y, c);
    AddCancels(Xor32(x, c), Xor32(y, c), hash + turn);
  }

  lemma TurnCancels(hash: uint32, x: uint32, y: uint32)
    requires x != y
    ensures TailTurn(hash, 0, x) != TailTurn(hash, 0, y)
  {
    MixAddCancels(hash, x, y);
    Xor32Cancels(MixAdd(hash, x), MixAdd(hash, y), hash);
  }

  /** So four-byte keys have different hashes, as do one-byte keys. */
  lemma ShortKeys(a: Bytes, b: Bytes, salt: uint32)
    requires |a| == |b| && a != b && (|a| == 1 || |a| == 2 || |a| == 4)
    ensures HashFrom(a, 0, salt) != HashFrom(b, 0, salt)
  {
    HashTellsEnd(a, b, salt);
  }

  /** A filter of one salt and more bits than hashes has no bit for both. */
  lemma NoCommonBit(salt: seq<uint32>, tableSize: nat, a: Bytes, b: Bytes)
    requires |salt| == 1 && tableSize >= 0x1_0000_0000 && DifferAtEnd(a, b, TellingEnd(|a|))
    ensures KeyBits(salt, tableSize, a) * KeyBits(salt, tableSize, b) == {}
  {
    HashTellsEnd(a, b, salt[0]);
    EuclideanUnique(HashFrom(a, 0, salt[0]), tableSize, 0, HashFrom(a, 0, salt[0]));
    EuclideanUnique(HashFrom(b, 0, salt[0]), tableSize, 0, HashFrom(b, 0, salt[0]));
  }

  /** With a salt below eight, the first four bytes of a key of eight do not count: they are
      multiplied by zero. */
  lemma FirstFourLost(a: Bytes, b: Bytes, salt: uint32)
    requires |a| == |b| == 8 && salt < 8 && a[4..] == b[4..]
    ensures HashFrom(a, 0, salt) == HashFrom(b, 0, salt)
  {
    ChunkIsAll(a, 0, salt);
    ChunkIsAll(b, 0, salt);
    assert forall i :: 4 <= i < 8 ==> a[i] == a[4..][i - 4] && b[i] == b[4..][i - 4];
    WordTells(a, b, 4, 4);
    MultipliedByZero(salt, Load32(a, 0));
    MultipliedByZero(salt, Load32(b, 0));
  }

  lemma MultipliedByZero(hash: uint32, i: uint32)
    requires hash < 8
    ensures MixMul(hash, i) == Xor32(hash * 128, 0)
  {
    MixMulIs(hash, i, hash * 128, 0, 0);
  }

  //  Worked values

  /** `p` with `k` zeros after it. */
  function Scale(p: nat, k: nat): nat {
    if k == 0 then p else 2 * Scale(p, k - 1)
  }

  /** Below both numbers `j` bits of one of them. */
  lemma {:induction false} XorLow(lo: nat, mid: nat, high: nat, j: nat, x: nat, y: nat, z: nat)
    requires lo < Scale(1, j) && x == Scale(mid, j) && y == lo + Scale(high, j) && z == XorNat(mid, high)
    ensures XorNat(x, y) == lo + Scale(z, j)
    decreases j
  {
    if j > 0 {
      XorLow(lo / 2, mid, high, j - 1, x / 2, y / 2, z);
      XorParts(x, y);
    }
  }

  /** A number below the lowest bit of another. */
  lemma {:induction false} XorHigh(a: nat, c: nat, k: nat, high: nat)
    requires a < Scale(1, k) && high == Scale(c, k)
    ensures XorNat(a, high) == a + high
    decreases k
  {
    if k == 0 {
      XorZero(c);
    } else {
      XorHigh(a / 2, c, k - 1, high / 2);
      XorParts(a, high);
    }
  }

  lemma {:induction false} ScaleSums(p: nat, q: nat, sum: nat, k: nat)
    requires sum == p + q
    ensures Scale(sum, k) == Scale(p, k) + Scale(q, k)
  {
    if k > 0 {
      ScaleSums(p, q, sum, k - 1);
    }
  }

  lemma XorZero(y: nat)
    ensures XorNat(0, y) == y == XorNat(y, 0)
  {
    XorNatZero(y);
    XorCommutes(0, y);
  }

  lemma {:induction false} ScaleIs(p: nat, k: nat, size: nat)
    requires size == Pow2(k)
    ensures Scale(p, k) == p * size
  {
    if k > 0 {
      ScaleIs(p, k - 1, Pow2(k - 1));
      TwiceProduct(p, Pow2(k - 1));
    }
  }

  lemma TwiceProduct(p: nat, half: nat)
    ensures p * (2 * half) == 2 * (p * half)
  {
  }

  /** Numbers without a common bit are added: `x` lies between the bits of `lo` and of `hi`. */
  lemma XorSums(x: uint32, y: uint32, lo: nat, mid: nat, hi: nat, j: nat, low: nat, k: nat, high: nat)
    requires low == Pow2(j) && high == Pow2(k) && lo < low && mid < high
    requires x == mid * low && y == lo + hi * high * low
    ensures Xor32(x, y) == x + y
  {
    ScaleIs(1, j, low);
    ScaleIs(1, k, high);
    ScaleIs(mid, j, low);
    ScaleIs(hi, k, high);
    ScaleIs(hi * high, j, low);
    XorHigh(mid, hi, k, hi * high);
    XorBetween(x, y, lo, mid, hi * high, j, mid + hi * high);
    Xor32Is(x, y);
  }

  lemma XorNotSums(x: uint32, y: uint32, lo: nat, mid: nat, hi: nat, j: nat, low: nat, k: nat, high: nat)
    requires low == Pow2(j) && high == Pow2(k) && lo < low && mid < high
    requires x == mid * low && y == lo + hi * high * low
    ensures x + y <= 0xFFFF_FFFF && Xor32(x, 0xFFFF_FFFF - y) == 0xFFFF_FFFF - (x + y)
  {
    XorSums(x, y, lo, mid, hi, j, low, k, high);
    XorNot(x, y);
  }

  lemma XorBetween(x: nat, y: nat, lo: nat, mid: nat, high: nat, j: nat, z: nat)
    requires lo < Scale(1, j) && z == mid + high == XorNat(mid, high)
    requires x == Scale(mid, j) && y == lo + Scale(high, j)
    ensures XorNat(x, y) == x + y
  {
    ScaleSums(mid, high, z, j);
    XorLow(lo, mid, high, j, x, y, z);
  }

  /** The complement can be taken before or after. */
  lemma {:induction false} XorComplement(x: nat, y: nat, n: nat)
    requires x < Pow2(n) && y < Pow2(n)
    ensures XorNat(x, y) < Pow2(n) && XorNat(x, Pow2(n) - 1 - y) == Pow2(n) - 1 - XorNat(x, y)
    decreases n
  {
    if n > 0 {
      XorComplement(x / 2, y / 2, n - 1);
      XorParts(x, y);
      XorParts(x, Pow2(n) - 1 - y);
    }
  }

  lemma XorNot(x: uint32, y: uint32)
    ensures Xor32(x, 0xFFFF_FFFF - y) == 0xFFFF_FFFF - Xor32(x, y)
  {
    Varint.Pow2Of32();
    XorComplement(x, y, 32);
    Xor32Is(x, y);
    Xor32Is(x, 0xFFFF_FFFF - y);
  }

  /** `(hash << 7) ^ i * (hash >> 3)` */
  lemma MixMulIs(hash: uint32, i: uint32, left: uint32, factor: uint32, right: uint32)
    requires left == hash * 128 % 0x1_0000_0000 && factor == hash / 8 && right == i * factor % 0x1_0000_0000
    ensures MixMul(hash, i) == Xor32(left, right)
  {
  }

  /** `~((hash << 11) + (i ^ (hash >> 5)))` */
  lemma MixAddIs(hash: uint32, i: uint32, small: uint32, x: uint32)
    requires small == hash / 32 && x == Xor32(i, small)
    ensures MixAdd(hash, i) == 0xFFFF_FFFF - (hash * 2048 + x) % 0x1_0000_0000
  {
  }

  lemma PowersOfTwo()
    ensures Pow2(5) == 32 && Pow2(11) == 2048
  {
  }

  /** An even turn, when the bits of the hash lie between those of the sum. */
  lemma AddTurn(hash: uint32, i: uint32, x: uint32, sum: uint32, lo: nat, hi: nat)
    requires hash == 32 && x == Xor32(i, hash / 32) && sum == (hash * 2048 + x) % 0x1_0000_0000
    requires lo < 32 && sum == lo + hi * 2048 * 32
    ensures TailTurn(hash, 0, i) == 0xFFFF_FFFF - (hash + sum)
  {
    PowersOfTwo();
    MixAddIs(hash, i, hash / 32, x);
    XorNotSums(hash, sum, lo, 1, hi, 5, 32, 11, 2048);
  }

  lemma NoBits(x: uint32, y: uint32)
    requires x < 1
    ensures Xor32(x, y) == y == Xor32(y, x)
  {
    Xor32Is(x, y);
    XorZero(y);
  }

  lemma LoadsAre(key: Bytes, at: nat)
    requires at + 2 <= |key|
    ensures var low: int, high: int := key[at], key[at + 1]; Load(key, at, 2) == low + 0x100 * high
    ensures at + 4 <= |key| ==> Load(key, at, 4) == Load(key, at, 2) + 0x1_0000 * Load(key, at + 2, 2)
  {
  }

  /** One byte: the factor of the last step, and the byte. */
  lemma OneByte(key: Bytes, salt: uint32)
    requires key == [1] && salt == 2
    ensures HashFrom(key, 0, salt) == 0x4B4B_4B4D
  {
    var product := salt * 0xA5A5_A5A5 % 0x1_0000_0000;
    XorSums(key[0], product, 0, 1, product / 2, 0, 1, 1, 2);
  }

  /** Two bytes: the shifts by eleven and by five. */
  lemma TwoBytes(key: Bytes, salt: uint32)
    requires key == [2, 0] && salt == 32
    ensures HashFrom(key, 0, salt) == 0xFFFE_FFDC
  {
    var i, small := Load(key, 0, 2), salt / 32;
    var x := i + small;
    var sum := salt * 2048 + x;
    LoadsAre(key, 0);
    XorSums(i, small, 1, 1, 0, 1, 2, 1, 2);
    AddTurn(salt, i, x, sum, 3, 1);
  }

  /** Four bytes, lowest first. */
  lemma FourBytes(key: Bytes, salt: uint32)
    requires key == [2, 0, 0, 1] && salt == 32
    ensures HashFrom(key, 0, salt) == 0xFEFE_FFDC
  {
    var i := FourLoads(key);
    FourValue(salt, i);
    FourOnly(key, salt, TailTurn(salt, 0, i));
  }

  lemma FourLoads(key: Bytes) returns (i: uint32)
    requires key == [2, 0, 0, 1]
    ensures Load32(key, 0) == i && i - 2 == 0x100_0000
  {
    i := Load(key, 0, 4);
    LoadsAre(key, 0);
    LoadsAre(key, 2);
  }

  lemma FourValue(hash: uint32, i: uint32)
    requires hash == 32 && i - 2 == 0x100_0000
    ensures TailTurn(hash, 0, i) == 0xFEFE_FFDC
  {
    LowestBit(i, hash / 32);
    AddTurn(hash, i, i + 1, hash * 2048 + (i + 1), 3, 0x101);
  }

  lemma FourOnly(key: Bytes, hash: uint32, next: uint32)
    requires |key| == 4 && next == TailTurn(hash, 0, Load32(key, 0))
    ensures HashFrom(key, 0, hash) == next
  {
    OnlyTail(key, 0, hash);
    FourStep(key, 0, hash, next);
  }

  lemma LowestBit(i: uint32, one: uint32)
    requires one == 1 && i % 2 == 0
    ensures Xor32(i, one) == i + 1
  {
    XorSums(one, i, 0, 1, i / 2, 0, 1, 1, 2);
    Xor32Is(one, i);
  }

  /** Seven bytes: four are added, two are multiplied with the shifts by seven and by three,
      and the turn is two at the last. */
  lemma SevenBytes(key: Bytes, at: nat, hash: uint32)
    requires at + 7 == |key| && key[at..] == [247, 255, 255, 255, 5, 0, 0] && hash == 0
    ensures HashFrom(key, at, hash) == 0x170
  {
    SevenLoads(key, at, key[at..]);
    var h4 := SevenFirst(key, at, hash);
    var h2 := SevenSecond(key, at + 4, h4);
    LastOfSeven(key, at + 6, h2);
  }

  lemma SevenFirst(key: Bytes, at: nat, hash: uint32) returns (h: uint32)
    requires at + 7 == |key| && Load32(key, at) == 0xFFFF_FFF7 && hash == 0
    ensures h + 1 == 9 && HashFrom(key, at, hash) == HashPair(key, at + 4, h, 1)
  {
    h := TailTurn(hash, 0, Load32(key, at));
    AddOnes(hash, Load32(key, at));
    OnlyTail(key, at, hash);
    FourStep(key, at, hash, h);
  }

  lemma SevenSecond(key: Bytes, at: nat, hash: uint32) returns (h: uint32)
    requires at + 3 == |key| && Load(key, at, 2) + 1 == 6 && hash + 1 == 9
    ensures h + 1 == 1038 && HashPair(key, at, hash, 1) == HashLast(key, at + 2, h, 2)
  {
    h := TailTurn(hash, 1, Load(key, at, 2));
    MulTurn(hash, Load(key, at, 2));
    PairStep(key, at, hash, 1, h);
  }

  lemma SevenLoads(key: Bytes, at: nat, bytes: Bytes)
    requires at + 7 == |key| && key[at..] == bytes == [247, 255, 255, 255, 5, 0, 0]
    ensures Load(key, at, 4) == 0xFFFF_FFF7 && Load(key, at + 4, 2) + 1 == 6 && key[at + 6] == 0
  {
    LoadsAre(key, at);
    LoadsAre(key, at + 2);
    LoadsAre(key, at + 4);
    assert forall i :: 0 <= i < 7 ==> key[at + i] == bytes[i];
  }

  lemma AddOnes(hash: uint32, i: uint32)
    requires hash == 0
    ensures TailTurn(hash, 0, i) == 0xFFFF_FFFF - i
  {
    NoBits(hash, i);
    MixAddIs(hash, i, hash, i);
    NoBits(hash, MixAdd(hash, i));
  }

  lemma FourStep(key: Bytes, at: nat, hash: uint32, next: uint32)
    requires at + 4 <= |key| < at + 8 && next == TailTurn(hash, 0, Load32(key, at))
    ensures HashTail(key, at, hash) == HashPair(key, at + 4, next, 1)
  {
  }

  lemma PairStep(key: Bytes, at: nat, hash: uint32, turn: nat, next: uint32)
    requires at + 2 <= |key| < at + 4 && next == TailTurn(hash, turn, Load(key, at, 2) % 0x1_0000_0000)
    ensures HashPair(key, at, hash, turn) == HashLast(key, at + 2, next, turn + 1)
  {
  }

  lemma LastOfSeven(key: Bytes, at: nat, hash: uint32)
    requires at + 1 == |key| && key[at] == 0 && hash + 1 == 1038
    ensures HashLast(key, at, hash, 2) == 0x170
  {
    NoBits(key[at], hash * 0xA5A5_A5A5 % 0x1_0000_0000);
  }

  lemma MulTurn(hash: uint32, i: uint32)
    requires hash + 1 == 9 && i + 1 == 6
    ensures TailTurn(hash, 1, i) + 1 == 1038
  {
    var m := MixMul(hash, i);
    MulValue(hash, i);
    XorSums(hash, m, 5, 1, 1, 3, 8, 7, 128);
  }

  lemma MulValue(hash: uint32, i: uint32)
    requires hash + 1 == 9 && i + 1 == 6
    ensures MixMul(hash, i) + 1 == 1030
  {
    MixMulIs(hash, i, hash * 128, 1, i);
    XorSums(hash * 128, i, 5, 1, 0, 10, 1024, 1, 2);
  }

  /** Eight bytes: the first four are multiplied, the others added, and both mixed in. */
  lemma EightBytes(key: Bytes, salt: uint32)
    requires key == [1, 0, 0, 0, 2, 0, 0, 0] && salt == 32
    ensures HashFrom(key, 0, salt) == 0xFFFE_EFD8
  {
    LoadsAre(key, 0);
    LoadsAre(key, 2);
    LoadsAre(key, 4);
    LoadsAre(key, 6);
    ChunkValue(salt, Load(key, 0, 4), Load(key, 4, 4));
    ChunkIsAll(key, 0, salt);
  }

  lemma ChunkValue(hash: uint32, i: uint32, j: uint32)
    requires hash == 32 && i == 1 && j == 2
    ensures Chunk(hash, i, j) == 0xFFFE_EFD8
  {
    var p, sum := MixMul(hash, i), 0xFFFF_FFFF - MixAdd(hash, j);
    ChunkMul(hash, i);
    ChunkAdd(hash, j);
    ChunkInner(p, sum);
    ChunkOuter(hash, p + sum);
  }

  lemma ChunkMul(hash: uint32, i: uint32)
    requires hash == 32 && i == 1
    ensures MixMul(hash, i) == 4100
  {
    MixMulIs(hash, i, hash * 128, 4, 4 * i);
    XorSums(hash * 128, 4 * i, 4, 1, 0, 12, 4096, 1, 2);
  }

  lemma ChunkAdd(hash: uint32, j: uint32)
    requires hash == 32 && j == 2
    ensures MixAdd(hash, j) == 0xFFFF_FFFF - 0x1_0003
  {
    XorSums(j, hash / 32, 1, 1, 0, 1, 2, 1, 2);
    MixAddIs(hash, j, hash / 32, j + hash / 32);
  }

  lemma ChunkInner(p: uint32, sum: uint32)
    requires p == 4100 && sum == 0x1_0003
    ensures Xor32(p, 0xFFFF_FFFF - sum) == 0xFFFF_FFFF - 0x1_1007
  {
    XorNotSums(p, sum, 3, 1025, 1, 2, 4, 14, 16384);
  }

  lemma ChunkOuter(hash: uint32, m: uint32)
    requires hash == 32 && m == 0x1_1007
    ensures Xor32(hash, 0xFFFF_FFFF - m) == 0xFFFE_EFD8
  {
    XorNotSums(hash, m, 7, 1, 0x11, 5, 32, 7, 128);
  }

  /** Fifteen bytes: the eight before the tail are no turn of it. */
  lemma FifteenBytes(key: Bytes, salt: uint32)
    requires key == [1, 2, 3, 4, 255, 255, 255, 255, 247, 255, 255, 255, 5, 0, 0] && salt == 0
    ensures HashFrom(key, 0, salt) == 0x170
  {
    SevenBytes(key, 8, salt);
    LoadOnes(key, 4);
    FifteenFirst(key, salt, HashFrom(key, 8, salt));
  }

  lemma FifteenFirst(key: Bytes, hash: uint32, next: uint32)
    requires |key| == 15 && Load32(key, 4) > 0xFFFF_FFFE && hash < 1 && next == HashFrom(key, 8, hash)
    ensures HashFrom(key, 0, hash) == next
  {
    ChunkOfOnes(hash, Load32(key, 0), Load32(key, 4));
    OneChunk(key, 0, hash, hash);
  }

  lemma LoadOnes(key: Bytes, at: nat)
    requires at + 4 <= |key| && forall i :: at <= i < at + 4 ==> key[i] == 255
    ensures Load32(key, at) > 0xFFFF_FFFE
  {
    LoadsAre(key, at);
    LoadsAre(key, at + 2);
  }

  lemma ChunkOfOnes(hash: uint32, i: uint32, j: uint32)
    requires hash < 1 && j > 0xFFFF_FFFE
    ensures Chunk(hash, i, j) == hash
  {
    MulNothing(hash, i);
    AddEverything(hash, j);
    NoBits(hash, hash);
  }

  lemma MulNothing(hash: uint32, i: uint32)
    requires hash < 1
    ensures MixMul(hash, i) == hash
  {
    MixMulIs(hash, i, hash, 0, hash);
    NoBits(hash, hash);
  }

  lemma AddEverything(hash: uint32, j: uint32)
    requires hash < 1 && j > 0xFFFF_FFFE
    ensures MixAdd(hash, j) == hash
  {
    NoBits(hash, j);
    MixAddIs(hash, j, hash, j);
  }

  //  Salts

  /** The salt at `k` after mixing from `i` on: multiplied by the third salt after it, which is
      mixed already if it has been passed, and the seed is added. */
  lemma {:induction false} MixedSalt(salt: seq<uint32>, i: nat, seed: uint64, k: nat, j: nat)
    requires i <= k < |salt| && j == (k + 3) % |salt|
    ensures
      var mixed := MixSalts(salt, i, seed);
      mixed[k] == (salt[k] * (if i <= j < k then mixed[j] else salt[j]) + seed) % 0x1_0000_0000
    decreases |salt| - i
  {
    var next := salt[i := (salt[i] * salt[(i + 3) % |salt|] + seed) % 0x1_0000_0000];
    PassedSalts(next, i + 1, seed);
    if i < k {
      MixedSalt(next, i + 1, seed, k, j);
    }
  }

  lemma {:induction false} PassedSalts(salt: seq<uint32>, i: nat, seed: uint64)
    ensures forall k :: 0 <= k < i && k < |salt| ==> MixSalts(salt, i, seed)[k] == salt[k]
    decreases |salt| - i
  {
    if i < |salt| {
      PassedSalts(salt[i := (salt[i] * salt[(i + 3) % |salt|] + seed) % 0x1_0000_0000], i + 1, seed);
    }
  }

  /** So of four salts each is multiplied by the one before it: the first by the last as it was. */
  lemma FourSalts(salt: seq<uint32>, seed: uint64)
    requires |salt| == 4
    ensures
      var mixed := MixSalts(salt, 0, seed);
      && mixed[0] == (salt[0] * salt[3] + seed) % 0x1_0000_0000
      && mixed[1] == (salt[1] * mixed[0] + seed) % 0x1_0000_0000
      && mixed[2] == (salt[2] * mixed[1] + seed) % 0x1_0000_0000
      && mixed[3] == (salt[3] * mixed[2] + seed) % 0x1_0000_0000
  {
    MixedSalt(salt, 0, seed, 0, 3);
    MixedSalt(salt, 0, seed, 1, 0);
    MixedSalt(salt, 0, seed, 2, 1);
    MixedSalt(salt, 0, seed, 3, 2);
  }
}
