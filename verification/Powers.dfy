/** Powers of two and the number of leading zeros of a 64-bit word. */
module Powers {
  import opened Seqs

  function Pow2(r: nat): (p: nat)
    ensures p > 0
  {
    if r == 0 then 1 else 2 * Pow2(r - 1)
  }

  const HALF: nat := 0x8000_0000_0000_0000

  lemma {:induction false} Pow2Grows(a: nat, b: nat)
    ensures a < b ==> 2 * Pow2(a) <= Pow2(b)
    decreases b
  {
    if a + 1 < b { Pow2Grows(a, b - 1); }
  }

  lemma {:induction false} Pow2Sum(a: nat, b: nat)
    ensures Pow2(a + b) == Pow2(a) * Pow2(b)
  {
    if b > 0 { Pow2Sum(a, b - 1); }
  }

  lemma WordPowers()
    ensures Pow2(63) == HALF && Pow2(64) == U64
  {
    assert Pow2(8) == 256 && Pow2(64) == 2 * Pow2(63);
    hide Pow2;
    Pow2Sum(8, 8);
    Pow2Sum(16, 16);
    Pow2Sum(32, 32);
  }

  function BitLength(x: nat): nat {
    if x == 0 then 0 else 1 + BitLength(x / 2)
  }

  lemma {:induction false} BitLengthBounds(x: nat)
    requires x > 0
    ensures BitLength(x) > 0 && Pow2(BitLength(x) - 1) <= x < Pow2(BitLength(x))
  {
    if x > 1 { BitLengthBounds(x / 2); }
  }

  lemma BitLengthOfWord(x: nat)
    requires x < U64
    ensures BitLength(x) <= 64
    ensures BitLength(x) == 64 <==> HALF <= x
  {
    WordPowers();
    if x > 0 {
      var n := BitLength(x);
      BitLengthBounds(x);
      Pow2Grows(64, n - 1);
      Pow2Grows(n, 63);
    }
  }

  /** __builtin_clzll, which is defined for nonzero words only. */
  function LeadingZeros(x: nat): (n: nat)
    requires 0 < x < U64
    ensures n < 64
    ensures n == 0 <==> HALF <= x
  {
    BitLengthOfWord(x);
    64 - BitLength(x)
  }

  /** The least power of two that is at least v. */
  ghost predicate LeastPow2(p: nat, v: nat) {
    && v <= p
    && (exists k :: p == Pow2(k))
    && forall k: nat :: v <= Pow2(k) ==> p <= Pow2(k)
  }

  lemma LeastPow2Bound(p: nat, v: nat)
    requires LeastPow2(p, v)
    ensures v > 0 ==> p < 2 * v
    ensures v <= 1 <==> p == 1
  {
    var k: nat :| p == Pow2(k);
    if k > 0 { assert Pow2(k - 1) < v; }
    assert Pow2(0) == 1;
  }
}
