/**
 * Key arithmetic of radix_tree.c.  A tree of height h has capacity 256^h - 1 and reads a key
 * as h digits to base 256.
 */
module RadixKeys {
  import opened Seqs

  const RADIX_SIZE: nat := 256

  /** The capacity of a tree of height h: h digits, all 255. */
  ghost function Cap(h: nat): nat {
    if h == 0 then 0 else Cap(h - 1) * RADIX_SIZE + 255
  }

  /** The key without its n lowest digits: the number of the level-n branch that covers it. */
  ghost function Prefix(key: nat, n: nat): nat {
    if n == 0 then key else Prefix(key / RADIX_SIZE, n - 1)
  }

  /** The h lowest digits of a key. */
  ghost function Low(key: nat, h: nat): nat {
    if h == 0 then 0 else Low(key / RADIX_SIZE, h - 1) * RADIX_SIZE + key % RADIX_SIZE
  }

  /** The digit of weight 256^n. */
  ghost function Digit(key: nat, n: nat): nat {
    Prefix(key, n) % RADIX_SIZE
  }

  /** The h lowest digits of a key, in the opposite order. */
  ghost function Reversed(key: nat, h: nat): nat {
    ReverseOnto(0, key, h)
  }

  ghost function ReverseOnto(acc: nat, key: nat, h: nat): nat
    decreases h
  {
    if h == 0 then acc else ReverseOnto(acc * RADIX_SIZE + key % RADIX_SIZE, key / RADIX_SIZE, h - 1)
  }

  /** prepare_key, on 64-bit words. */
  method PrepareKey(capacity: nat, key: nat, ghost h: nat) returns (result: nat)
    requires capacity == Cap(h) && h <= 8 && key < U64
    ensures result == Reversed(key, h) <= Cap(h)
  {
    hide Cap;
    CapShift(h);
    result := 0;
    var capacity': nat, key': nat := capacity, key;
    ghost var left: nat := h;
    while capacity' != 0
      invariant left <= h && capacity' == Cap(left) && (left > 0 <==> capacity' != 0)
      invariant result <= Cap(h - left)
      invariant ReverseOnto(result, key', left) == Reversed(key, h)
    {
      ShiftIn(result, h - left, key' % RADIX_SIZE);
      result := result * RADIX_SIZE % U64;           // result <<= CX_RADIX
      result := result + key' % RADIX_SIZE;          // the low byte is clear, so | is +
      key' := key' / RADIX_SIZE;
      capacity' := capacity' / RADIX_SIZE;
      CapShift(left);
      left := left - 1;
      CapShift(left);
    }
  }

  lemma CapShift(h: nat)
    ensures Cap(h) > 0 <==> h > 0
    ensures h > 0 ==> Cap(h) / RADIX_SIZE == Cap(h - 1)
  {
  }

  /** Shifting a byte into a result of fewer than eight digits loses no bits. */
  lemma ShiftIn(result: nat, n: nat, digit: nat)
    requires n < 8 && result <= Cap(n) && digit < RADIX_SIZE
    ensures result * RADIX_SIZE % U64 + digit == result * RADIX_SIZE + digit <= Cap(n + 1)
  {
    CapBounds(n, 7);
    assert result * RADIX_SIZE < U64;
  }

  lemma {:induction false} CapBounds(h: nat, k: nat)
    requires h <= k <= 8
    ensures Cap(h) <= Cap(k) && Cap(7) == U64 / 256 - 1 && Cap(8) == U64 - 1
    ensures Cap(h) == 0 <==> h == 0
    decreases k - h
  {
    assert Cap(3) == 0xff_ffff;
    assert Cap(6) == 0xffff_ffff_ffff;
    assert Cap(8) == U64 - 1;
    if h < k {
      CapBounds(h + 1, k);
    }
  }

  lemma {:induction false} PrefixStep(key: nat, n: nat)
    ensures Prefix(key, n + 1) == Prefix(key, n) / RADIX_SIZE
  {
    if n > 0 {
      PrefixStep(key / RADIX_SIZE, n - 1);
    }
  }

  /** A key fits below the capacity exactly when nothing is left above its h lowest digits. */
  lemma {:induction false} CapPrefix(key: nat, h: nat)
    ensures key <= Cap(h) <==> Prefix(key, h) == 0
  {
    if h > 0 {
      CapPrefix(key / RADIX_SIZE, h - 1);
    }
  }

  /** The digits below the height are those of the reduced key. */
  lemma {:induction false} LowDigits(key: nat, h: nat)
    ensures Low(key, h) <= Cap(h)
    ensures key <= Cap(h) ==> Low(key, h) == key
    ensures forall n :: 0 <= n < h ==> Digit(Low(key, h), n) == Digit(key, n)
  {
    if h > 0 {
      LowDigits(key / RADIX_SIZE, h - 1);
      forall n | 0 <= n < h
        ensures Digit(Low(key, h), n) == Digit(key, n)
      {
        if n > 0 {
          assert Digit(Low(key / RADIX_SIZE, h - 1), n - 1) == Digit(key / RADIX_SIZE, n - 1);
        }
      }
    }
  }

  /** Digit i of the reversed key is digit h-1-i of the key. */
  lemma {:induction false} ReverseOntoDigits(acc: nat, key: nat, h: nat)
    ensures Prefix(ReverseOnto(acc, key, h), h) == acc
    ensures forall i :: 0 <= i < h ==> Digit(ReverseOnto(acc, key, h), i) == Digit(key, h - 1 - i)
    decreases h
  {
    if h > 0 {
      var acc', key' := acc * RADIX_SIZE + key % RADIX_SIZE, key / RADIX_SIZE;
      var r := ReverseOnto(acc', key', h - 1);
      ReverseOntoDigits(acc', key', h - 1);
      PrefixStep(r, h - 1);
      forall i | 0 <= i < h
        ensures Digit(r, i) == Digit(key, h - 1 - i)
      {
        if i < h - 1 {
          assert Digit(r, i) == Digit(key', h - 1 - 1 - i);
        }
      }
    }
  }

  /** A number below 256^h is determined by its h digits. */
  lemma {:induction false} DigitsDetermine(a: nat, b: nat, h: nat)
    requires Prefix(a, h) == Prefix(b, h)
    requires forall i :: 0 <= i < h ==> Digit(a, i) == Digit(b, i)
    ensures a == b
  {
    if h > 0 {
      forall i | 0 <= i < h - 1
        ensures Digit(a / RADIX_SIZE, i) == Digit(b / RADIX_SIZE, i)
      {
        assert Digit(a, i + 1) == Digit(b, i + 1);
      }
      DigitsDetermine(a / RADIX_SIZE, b / RADIX_SIZE, h - 1);
      assert Digit(a, 0) == Digit(b, 0);
    }
  }

  /** prepare_key twice gives the key back, for every key the tree has room for. */
  lemma ReversedTwice(key: nat, h: nat)
    requires key <= Cap(h)
    ensures Reversed(key, h) <= Cap(h) && Reversed(Reversed(key, h), h) == key
  {
    var r := Reversed(key, h);
    ReverseOntoDigits(0, key, h);
    CapPrefix(r, h);
    CapPrefix(key, h);
    ReverseOntoDigits(0, r, h);
    forall i | 0 <= i < h
      ensures Digit(Reversed(r, h), i) == Digit(key, i)
    {
      assert Digit(Reversed(r, h), i) == Digit(r, h - 1 - i);
      assert Digit(r, h - 1 - i) == Digit(key, h - 1 - (h - 1 - i));
    }
    DigitsDetermine(Reversed(r, h), key, h);
  }

  /** The walk of the tree: after n steps the next index is the most significant digit not yet read. */
  lemma WalkDigit(key: nat, h: nat, n: nat)
    requires n < h
    ensures Prefix(Reversed(key, h), n) % RADIX_SIZE == Digit(key, h - 1 - n)
    ensures Prefix(Reversed(key, h), n + 1) == Prefix(Reversed(key, h), n) / RADIX_SIZE
    ensures Prefix(key, h - n) * RADIX_SIZE + Digit(key, h - 1 - n) == Prefix(key, h - 1 - n)
  {
    ReverseOntoDigits(0, key, h);
    PrefixStep(Reversed(key, h), n);
    PrefixStep(key, h - 1 - n);
    assert Digit(Reversed(key, h), n) == Digit(key, h - 1 - n);
  }

  /** Reading a key that is too large reads its h lowest digits only. */
  lemma ReversedLow(key: nat, h: nat)
    ensures Reversed(Low(key, h), h) == Reversed(key, h)
  {
    LowDigits(key, h);
    ReverseOntoDigits(0, key, h);
    ReverseOntoDigits(0, Low(key, h), h);
    var a, b := Reversed(Low(key, h), h), Reversed(key, h);
    forall i | 0 <= i < h
      ensures Digit(a, i) == Digit(b, i)
    {
      assert Digit(a, i) == Digit(Low(key, h), h - 1 - i);
      assert Digit(b, i) == Digit(key, h - 1 - i);
    }
    DigitsDetermine(a, b, h);
  }
}
