/** The hash of a key in rc_hash_map.c, and the index the search for a key starts at. */
module KeyHash {
  import opened Seqs

  const COLLISION_RESERVE: nat := 4    // 1 << COLLISION_RESERVE_BITS

  /** djb2 over the first n bytes of a little-endian key. */
  ghost function Djb2(hash: nat, key: nat, n: nat): nat
    decreases n
  {
    if n == 0 then hash else Djb2((hash * 33 + key % 256) % U64, key / 256, n - 1)
  }

  ghost function KeyIndex(key: nat, size: nat): (i: nat)
    requires size > 0
    ensures i < size
  {
    Djb2(5381, key, 8) * COLLISION_RESERVE % U64 % size
  }

  method Djb2Hash(key: nat) returns (hash: nat)
    requires key < U64
    ensures hash == Djb2(5381, key, 8)
  {
    hash := 5381;
    var bytes := key;
    for i := 0 to 8
      invariant Djb2(hash, bytes, 8 - i) == Djb2(5381, key, 8)
    {
      hash := (hash * 33 + bytes % 256) % U64;
      bytes := bytes / 256;
    }
  }

  method KeyToIndex(key: nat, size: nat) returns (index: nat)
    requires key < U64 && size > 0
    ensures index == KeyIndex(key, size)
  {
    var hash := Djb2Hash(key);
    index := hash * COLLISION_RESERVE % U64 % size;
  }

  // ----- the hash in closed form -----

  /** Byte i of the key with weight 33^(7-i), and the start value 5381 with weight 33^8. */
  ghost function HashSum(key: nat): nat {
    7567884774754821
    + key % 256 * 42618442977 + key / 0x100 % 256 * 1291467969
    + key / 0x1_0000 % 256 * 39135393 + key / 0x100_0000 % 256 * 1185921
    + key / 0x1_0000_0000 % 256 * 35937 + key / 0x100_0000_0000 % 256 * 1089
    + key / 0x1_0000_0000_0000 % 256 * 33 + key / 0x100_0000_0000_0000 % 256
  }

  ghost function Pow33(n: nat): nat {
    if n == 0 then 1 else 33 * Pow33(n - 1)
  }

  /** The bytes of a key as digits to base 33, the first byte the most significant. */
  ghost function Base33(key: nat, n: nat): nat {
    if n == 0 then 0 else key % 256 * Pow33(n - 1) + Base33(key / 256, n - 1)
  }

  lemma {:induction false} Djb2Base33(hash: nat, key: nat, n: nat)
    ensures Djb2(hash, key, n) % U64 == (hash * Pow33(n) + Base33(key, n)) % U64
    ensures n > 0 ==> Djb2(hash, key, n) < U64
    decreases n
  {
    if n > 0 {
      var x, p, b := hash * 33 + key % 256, Pow33(n - 1), Base33(key / 256, n - 1);
      Djb2Base33(x % U64, key / 256, n - 1);
      ReduceFactor(x, p, b);
      Distribute(hash, key % 256, p);
    }
  }

  lemma Distribute(hash: nat, digit: nat, p: nat)
    ensures (hash * 33 + digit) * p == hash * (33 * p) + digit * p
  {
  }

  lemma ReduceFactor(x: nat, p: nat, b: nat)
    ensures (x % U64 * p + b) % U64 == (x * p + b) % U64
  {
    var q, r := x / U64, x % U64;
    assert x * p == q * p * U64 + r * p by {
      assert x == q * U64 + r;
      assert (q * U64 + r) * p == q * p * U64 + r * p;
    }
    AddWords(r * p + b, q * p);
  }

  lemma AddWords(a: nat, q: nat)
    ensures (a + q * U64) % U64 == a % U64
  {
    var k, r := a / U64, a % U64;
    assert a + q * U64 == (k + q) * U64 + r;
  }

  lemma Powers33()
    ensures Pow33(0) == 1 && Pow33(1) == 33 && Pow33(2) == 1089 && Pow33(3) == 35937 && Pow33(4) == 1185921
    ensures Pow33(5) == 39135393 && Pow33(6) == 1291467969 && Pow33(7) == 42618442977 && Pow33(8) == 1406408618241
  {
    assert Pow33(4) == 1185921;
  }

  lemma LowBytes(key: nat)
    ensures Base33(key, 4) == key % 256 * 35937 + key / 0x100 % 256 * 1089
                            + key / 0x1_0000 % 256 * 33 + key / 0x100_0000 % 256
  {
    Powers33();
    hide Pow33;
    assert Base33(key / 0x100_0000, 1) == key / 0x100_0000 % 256;
    assert Base33(key / 0x1_0000, 2) == key / 0x1_0000 % 256 * 33 + key / 0x100_0000 % 256;
    assert Base33(key / 0x100, 3) == key / 0x100 % 256 * 1089 + key / 0x1_0000 % 256 * 33 + key / 0x100_0000 % 256;
  }

  lemma HighBytes(key: nat)
    ensures Base33(key, 8) == key % 256 * 42618442977 + key / 0x100 % 256 * 1291467969
                            + key / 0x1_0000 % 256 * 39135393 + key / 0x100_0000 % 256 * 1185921
                            + Base33(key / 0x1_0000_0000, 4)
  {
    Powers33();
    hide Pow33;
    assert Base33(key / 0x100_0000, 5) == key / 0x100_0000 % 256 * 1185921 + Base33(key / 0x1_0000_0000, 4);
    assert Base33(key / 0x1_0000, 6) == key / 0x1_0000 % 256 * 39135393 + Base33(key / 0x100_0000, 5);
    assert Base33(key / 0x100, 7) == key / 0x100 % 256 * 1291467969 + Base33(key / 0x1_0000, 6);
  }

  lemma LastBytes(key: nat)
    ensures Base33(key / 0x1_0000_0000, 4) ==
            key / 0x1_0000_0000 % 256 * 35937 + key / 0x100_0000_0000 % 256 * 1089
            + key / 0x1_0000_0000_0000 % 256 * 33 + key / 0x100_0000_0000_0000 % 256
  {
    var high := key / 0x1_0000_0000;
    LowBytes(high);
    hide Base33;
    assert high / 0x100 == key / 0x100_0000_0000;
    assert high / 0x1_0000 == key / 0x1_0000_0000_0000;
    assert high / 0x100_0000 == key / 0x100_0000_0000_0000;
  }

  lemma SumOfBytes(key: nat)
    ensures HashSum(key) == 5381 * Pow33(8) + Base33(key, 8)
  {
    LastBytes(key);
    HighBytes(key);
    Powers33();
    hide Pow33, Base33;
  }

  /** The hash is the sum, in a 64-bit word. */
  lemma HashIsSum(key: nat)
    ensures Djb2(5381, key, 8) == HashSum(key) % U64
  {
    Djb2Base33(5381, key, 8);
    SumOfBytes(key);
    Reduced(Djb2(5381, key, 8));
    hide *;
  }

  lemma Reduced(x: nat)
    ensures x < U64 ==> x % U64 == x
  {
  }

  lemma SumOfOne()
    ensures HashSum(1) == 7567927393197798
  {
  }

  /** The index, and the low bits it leaves for collisions when the size is a multiple of four. */
  lemma IndexIsSum(key: nat, size: nat)
    requires size > 0
    ensures KeyIndex(key, size) == HashSum(key) % U64 * 4 % U64 % size
    ensures size % 4 == 0 ==> KeyIndex(key, size) % 4 == 0
  {
    HashIsSum(key);
    hide Djb2, HashSum;
    var x := HashSum(key) % U64 * 4;
    assert x % U64 % 4 == 0;
    if size % 4 == 0 { FourDivides(x % U64, size); }
  }

  lemma FourDivides(x: nat, size: nat)
    requires size > 0 && x % 4 == 0 && size % 4 == 0
    ensures x % size % 4 == 0
  {
    var q, r, k := x / size, x % size, size / 4;
    assert q * size == 4 * (q * k) by { assert size == 4 * k; }
    assert x == q * size + r;
  }

  lemma SmallSum(x: nat, size: nat)
    requires size > 0 && x * 4 < U64
    ensures x % U64 * 4 % U64 % size == x * 4 % size
  {
    Reduced(x);
    Reduced(x * 4);
    hide *;
  }

  lemma OneModulo()
    ensures 30271709572791192 % 1024 == 920
  {
  }

  lemma IndexOfOne()
    ensures KeyIndex(1, 1024) == 920
  {
    SumOfOne();
    assert HashSum(1) * 4 < U64;
    IndexIsSum(1, 1024);
    SmallSum(HashSum(1), 1024);
    hide *;
    OneModulo();
    assert HashSum(1) * 4 == 30271709572791192;
  }
}
