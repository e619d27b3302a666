/**
 * The two-level bit table of the width data: the compiler of codegen/char_width.c, which packs a
 * flat bitmap into numbered blocks of bits, and the reader of unicode-width.c.
 */
module WidthTable {
  import opened Powers

  /** 1 << k in a byte. */
  function Mask(k: nat): bv8
    requires k < 8
  {
    if k == 0 then 1 else if k == 1 then 2 else if k == 2 then 4 else if k == 3 then 8
    else if k == 4 then 16 else if k == 5 then 32 else if k == 6 then 64 else 128
  }

  /** Bit k of a byte has weight 2^k, the lowest first. */
  lemma MaskIsPower(k: nat)
    requires k < 8
    ensures Mask(k) as nat == Pow2(k)
  {
    assert Pow2(4) == 16;
  }

  predicate Bit(b: bv8, k: nat)
    requires k < 8
  {
    b & Mask(k) != 0
  }

  lemma OrBit(b: bv8, j: nat, k: nat)
    requires j < 8 && k < 8
    ensures Bit(b | Mask(j), k) <==> Bit(b, k) || k == j
  {
  }

  lemma ConstantBits(k: nat)
    requires k < 8
    ensures !Bit(0, k) && Bit(0xff, k)
  {
  }

  /** The number of bytes in a block of 2^radix bits. */
  function BlockBytes(radix: nat): nat {
    Pow2(radix) / 8
  }

  lemma WholeBytes(r: nat)
    requires r >= 3
    ensures Pow2(r) == 8 * BlockBytes(r) && BlockBytes(r) > 0
  {
    if r > 3 { WholeBytes(r - 1); }
  }

  function DivideCeil(x: nat, y: nat): nat
    requires y > 0
  {
    x / y + if x % y != 0 then 1 else 0
  }

  /** The least number of rows of y that hold x. */
  lemma DivideCeilLeast(x: nat, y: nat, n: nat)
    requires y > 0
    ensures x <= n * y <==> DivideCeil(x, y) <= n
  {
    var q := x / y;
    assert x == At(q, y, x % y);
    RowsInOrder(q, n, y);
    RowsInOrder(n, q, y);
    assert At(n, y, 0) == n * y;
  }

  /** Position k of row n when every row has w positions. */
  function At(n: nat, w: nat, k: nat): nat {
    n * w + k
  }

  lemma LaterRow(n: nat, m: nat, w: nat)
    requires n < m
    ensures n * w + w <= m * w
  {
    var d := m - n - 1;
    assert m * w == (n + 1 + d) * w == n * w + w + d * w;
    assert d * w >= 0;
  }

  lemma RowsInOrder(n: nat, m: nat, w: nat)
    ensures n <= m ==> At(n, w, 0) <= At(m, w, 0)
    ensures n < m ==> At(n, w, w) <= At(m, w, 0)
    ensures At(n + 1, w, 0) == At(n, w, w) == At(n, w, 0) + w
  {
    if n < m { LaterRow(n, m, w); }
  }

  /** Quotient and remainder are the row and the position. */
  lemma RowOf(x: nat, w: nat)
    requires w > 0
    ensures At(x / w, w, x % w) == x && x % w < w
    ensures forall size: nat :: x < size ==> x / w < DivideCeil(size, w)
  {
    assert x == x / w * w + x % w;
    forall size: nat | x < size ensures x / w < DivideCeil(size, w) {
      assert size == size / w * w + size % w;
      RowsInOrder(size / w, x / w, w);
    }
  }

  lemma RowUnique(n: nat, w: nat, k: nat)
    requires k < w
    ensures At(n, w, k) / w == n && At(n, w, k) % w == k
  {
    var x := At(n, w, k);
    RowOf(x, w);
    if x / w < n { LaterRow(x / w, n, w); }
    if n < x / w { LaterRow(n, x / w, w); }
  }

  /** Bit j of block i of the flat table; positions past its end count as unset. */
  predicate InTable(flat: seq<bool>, p: nat, i: nat, j: nat) {
    At(i, p, j) < |flat|
  }

  predicate Entry(flat: seq<bool>, p: nat, i: nat, j: nat) {
    At(i, p, j) < |flat| && flat[At(i, p, j)]
  }

  ghost predicate AllSet(flat: seq<bool>, p: nat, i: nat) {
    forall j :: 0 <= j < p && InTable(flat, p, i, j) ==> Entry(flat, p, i, j)
  }

  ghost predicate AllUnset(flat: seq<bool>, p: nat, i: nat) {
    forall j :: 0 <= j < p && InTable(flat, p, i, j) ==> !Entry(flat, p, i, j)
  }

  ghost predicate Mixed(flat: seq<bool>, p: nat, i: nat) {
    !AllSet(flat, p, i) && !AllUnset(flat, p, i)
  }

  /** The number of mixed blocks before block i. */
  ghost function MixedBefore(flat: seq<bool>, p: nat, i: nat): nat {
    if i == 0 then 0 else MixedBefore(flat, p, i - 1) + if Mixed(flat, p, i - 1) then 1 else 0
  }

  ghost predicate SomeSet(flat: seq<bool>, p: nat, n: nat) {
    exists i :: 0 <= i < n && AllSet(flat, p, i)
  }

  ghost predicate SomeUnset(flat: seq<bool>, p: nat, n: nat) {
    exists i :: 0 <= i < n && AllUnset(flat, p, i)
  }

  /**
   * The number under which block i of n is emitted: mixed blocks in order, then one block shared
   * by all full blocks, then one shared by all empty blocks.
   */
  ghost function NumberOf(flat: seq<bool>, p: nat, n: nat, i: nat): nat {
    if AllSet(flat, p, i) then MixedBefore(flat, p, n)
    else if AllUnset(flat, p, i) then MixedBefore(flat, p, n) + (if SomeSet(flat, p, n) then 1 else 0)
    else MixedBefore(flat, p, i)
  }

  ghost function Blocks(flat: seq<bool>, p: nat, n: nat): nat {
    MixedBefore(flat, p, n) + (if SomeSet(flat, p, n) then 1 else 0) + (if SomeUnset(flat, p, n) then 1 else 0)
  }

  lemma {:induction false} MixedGrows(flat: seq<bool>, p: nat, i: nat, n: nat)
    requires i <= n
    ensures MixedBefore(flat, p, i) <= MixedBefore(flat, p, n) <= n
    ensures i < n && Mixed(flat, p, i) ==> MixedBefore(flat, p, i) < MixedBefore(flat, p, n)
    decreases n
  {
    hide Mixed;
    if i < n {
      MixedGrows(flat, p, i, n - 1);
    } else if n > 0 {
      MixedGrows(flat, p, n - 1, n - 1);
    }
  }

  /** Every block has one of the emitted numbers; only the shared blocks share a number. */
  lemma NumbersInRange(flat: seq<bool>, p: nat, n: nat, i: nat)
    requires i < n
    ensures NumberOf(flat, p, n, i) < Blocks(flat, p, n)
  {
    hide AllSet, AllUnset, MixedBefore;
    MixedGrows(flat, p, i, n);
  }

  lemma NumbersDistinct(flat: seq<bool>, p: nat, n: nat, i: nat, k: nat)
    requires i < n && k < n && i != k
    requires NumberOf(flat, p, n, i) == NumberOf(flat, p, n, k)
    ensures (AllSet(flat, p, i) && AllSet(flat, p, k)) || (AllUnset(flat, p, i) && AllUnset(flat, p, k))
  {
    hide AllSet, AllUnset, MixedBefore;
    MixedGrows(flat, p, i, n);
    MixedGrows(flat, p, k, n);
    if i < k { MixedGrows(flat, p, i, k); } else { MixedGrows(flat, p, k, i); }
  }

  /** Mixed blocks are numbered in order, from 0 on; then comes the full block, then the empty one. */
  lemma NumbersInOrder(flat: seq<bool>, p: nat, n: nat, i: nat, k: nat)
    requires i < n && k < n
    ensures Mixed(flat, p, i) && Mixed(flat, p, k) && i < k ==> NumberOf(flat, p, n, i) < NumberOf(flat, p, n, k)
    ensures Mixed(flat, p, i) && !Mixed(flat, p, k) ==> NumberOf(flat, p, n, i) < NumberOf(flat, p, n, k)
    ensures AllSet(flat, p, i) && !AllSet(flat, p, k) && AllUnset(flat, p, k) ==>
              NumberOf(flat, p, n, i) < NumberOf(flat, p, n, k)
  {
    hide AllSet, AllUnset, MixedBefore;
    MixedGrows(flat, p, i, n);
    if i < k { MixedGrows(flat, p, i, k); }
  }

  /** Bit j of block i as emitted: a full block is emitted full even past the table's end. */
  ghost predicate Emitted(flat: seq<bool>, p: nat, i: nat, j: nat) {
    AllSet(flat, p, i) || Entry(flat, p, i, j)
  }

  /** Bit j%8 of byte j/8 of block number n is bit j of block i. */
  ghost predicate BitReads(tbl: seq<bv8>, e: nat, n: nat, flat: seq<bool>, i: nat, j: nat) {
    At(n, e, j / 8) < |tbl| && (Bit(tbl[At(n, e, j / 8)], j % 8) <==> Emitted(flat, 8 * e, i, j))
  }

  ghost predicate ReadsAs(tbl: seq<bv8>, e: nat, n: nat, flat: seq<bool>, i: nat) {
    forall j :: 0 <= j < 8 * e ==> BitReads(tbl, e, n, flat, i, j)
  }

  lemma ReadsAsKept(tbl: seq<bv8>, more: seq<bv8>, e: nat, n: nat, flat: seq<bool>, i: nat)
    requires ReadsAs(tbl, e, n, flat, i)
    ensures ReadsAs(tbl + more, e, n, flat, i)
  {
    hide At, Bit, Emitted;
    forall j | 0 <= j < 8 * e ensures BitReads(tbl + more, e, n, flat, i, j) {
      assert BitReads(tbl, e, n, flat, i, j);
    }
  }

  /** The arrays and constants of a generated table; a lookup entry is one byte. */
  datatype Compiled = Compiled(lookup: seq<nat>, tbl: seq<bv8>, size: nat, radix: nat)

  /** What the compiler emits for a flat table. */
  ghost predicate Generated(c: Compiled, flat: seq<bool>) {
    var e := BlockBytes(c.radix);
    var n := DivideCeil(|flat|, Pow2(c.radix));
    && c.size == |flat| && |c.lookup| == n
    && |c.tbl| == At(Blocks(flat, 8 * e, n), e, 0)
    && (forall i :: 0 <= i < n ==> c.lookup[i] == NumberOf(flat, 8 * e, n, i) % 256)
    && (forall i :: 0 <= i < n ==> ReadsAs(c.tbl, e, NumberOf(flat, 8 * e, n, i), flat, i))
  }

  /** cp >> radix, the block of a code point. */
  function BlockOf(cp: nat, radix: nat): nat {
    hide *;
    cp / Pow2(radix)
  }

  /** cp & ((1 << radix) - 1), its position in the block. */
  function WithinBlock(cp: nat, radix: nat): nat {
    hide *;
    cp % Pow2(radix)
  }

  lemma Sizes(c: Compiled, flat: seq<bool>)
    requires Generated(c, flat)
    ensures c.size == |flat| && |c.lookup| == DivideCeil(|flat|, Pow2(c.radix))
  {
    hide Pow2, BlockBytes, NumberOf, At, ReadsAs, Blocks, DivideCeil;
  }

  /** The byte the reader picks for a code point in block number index. */
  function Offset(index: nat, radix: nat, cp: nat): nat {
    index * Pow2(radix) / 8 + WithinBlock(cp, radix) / 8
  }

  /** Every code point below the size stays inside both arrays. */
  ghost predicate InBounds(c: Compiled) {
    hide *;
    forall cp: nat :: cp < c.size ==>
      BlockOf(cp, c.radix) < |c.lookup| && Offset(c.lookup[BlockOf(cp, c.radix)], c.radix, cp) < |c.tbl|
  }

  predicate TableLookup(c: Compiled, cp: nat)
    requires InBounds(c)
  {
    if cp >= c.size then false
    else
      var index := c.lookup[BlockOf(cp, c.radix)];
      Bit(c.tbl[Offset(index, c.radix, cp)], cp % 8)
  }

  lemma TimesEight(n: nat, p: nat, e: nat)
    requires p == 8 * e
    ensures n * p == 8 * (n * e)
  {
  }

  lemma SameRemainder(x: nat, q: nat, r: nat, p: nat, e: nat)
    requires p == 8 * e && x == q * p + r
    ensures x % 8 == r % 8
  {
    TimesEight(q, p, e);
  }

  lemma OffsetIsRow(index: nat, radix: nat, cp: nat)
    requires radix >= 3
    ensures Offset(index, radix, cp) == At(index, BlockBytes(radix), WithinBlock(cp, radix) / 8)
    ensures cp % 8 == WithinBlock(cp, radix) % 8
    ensures WithinBlock(cp, radix) < Pow2(radix) && At(BlockOf(cp, radix), Pow2(radix), WithinBlock(cp, radix)) == cp
  {
    WholeBytes(radix);
    hide Pow2, BlockBytes;
    RowOf(cp, Pow2(radix));
    assert BlockOf(cp, radix) == cp / Pow2(radix) && WithinBlock(cp, radix) == cp % Pow2(radix);
    hide BlockOf, WithinBlock;
    TimesEight(index, Pow2(radix), BlockBytes(radix));
    SameRemainder(cp, BlockOf(cp, radix), WithinBlock(cp, radix), Pow2(radix), BlockBytes(radix));
  }

  lemma BlockExists(cp: nat, size: nat, radix: nat)
    requires cp < size
    ensures BlockOf(cp, radix) < DivideCeil(size, Pow2(radix))
  {
    RowOf(cp, Pow2(radix));
  }

  /** The reader never leaves the arrays, whatever the number of blocks. */
  lemma ReaderInBounds(c: Compiled, flat: seq<bool>)
    requires c.radix >= 3 && Generated(c, flat)
    ensures InBounds(c)
  {
    forall cp: nat | cp < |flat|
      ensures BlockOf(cp, c.radix) < |c.lookup|
      ensures Offset(c.lookup[BlockOf(cp, c.radix)], c.radix, cp) < |c.tbl|
    {
      hide Bit, Offset, BlockBytes, Pow2, NumberOf, Blocks, ReadsAs, BlockOf, WithinBlock, DivideCeil, At;
      var e := BlockBytes(c.radix);
      WholeBytes(c.radix);
      BlockExists(cp, |flat|, c.radix);
      var i := BlockOf(cp, c.radix);
      NumbersInRange(flat, 8 * e, |c.lookup|, i);
      OffsetIsRow(c.lookup[i], c.radix, cp);
      RowsInOrder(c.lookup[i], Blocks(flat, 8 * e, |c.lookup|), e);
      WithinRow(c.lookup[i], e, WithinBlock(cp, c.radix) / 8);
    }
    hide At, Bit, Offset, BlockBytes, Pow2, NumberOf, Blocks, ReadsAs, BlockOf, WithinBlock, DivideCeil, Generated;
  }

  lemma WithinRow(n: nat, w: nat, k: nat)
    requires k < w
    ensures At(n, w, k) < At(n, w, w)
  {
  }

  /** The reader returns the emitted bit of whichever block carries the number it looked up. */
  lemma LookupEmits(c: Compiled, flat: seq<bool>, cp: nat, k: nat)
    requires c.radix >= 3 && Generated(c, flat) && InBounds(c)
    requires cp < |flat| && k < |c.lookup|
    requires BlockOf(cp, c.radix) < |c.lookup|
    requires NumberOf(flat, Pow2(c.radix), |c.lookup|, k) == c.lookup[BlockOf(cp, c.radix)]
    ensures TableLookup(c, cp) <==> Emitted(flat, Pow2(c.radix), k, WithinBlock(cp, c.radix))
  {
    hide At, Bit, Offset, BlockBytes, Pow2, BlockOf, WithinBlock, NumberOf, Blocks, Emitted, DivideCeil;
    var n := c.lookup[BlockOf(cp, c.radix)];
    OffsetIsRow(n, c.radix, cp);
    WholeBytes(c.radix);
    assert ReadsAs(c.tbl, BlockBytes(c.radix), n, flat, k);
    var e := BlockBytes(c.radix);
    assert BitReads(c.tbl, e, n, flat, k, WithinBlock(cp, c.radix));
  }

  /** Block k as emitted stands in for block i wherever block i lies in the table. */
  ghost predicate StandsFor(flat: seq<bool>, p: nat, k: nat, i: nat) {
    forall j :: 0 <= j < p && InTable(flat, p, i, j) ==> (Emitted(flat, p, k, j) <==> Entry(flat, p, i, j))
  }

  /** Block i has too large a number for a byte, and its byte is the number of block k. */
  ghost predicate Confused(flat: seq<bool>, p: nat, n: nat, i: nat, k: nat) {
    NumberOf(flat, p, n, i) >= 256 && NumberOf(flat, p, n, k) == NumberOf(flat, p, n, i) % 256
  }

  /**
   * A block number is stored in one byte. The numbers fit when every block numbered 256 or more
   * looks like the block whose number it is mistaken for.
   */
  ghost predicate NumbersFit(flat: seq<bool>, p: nat, n: nat) {
    forall i, k :: 0 <= i < n && 0 <= k < n ==> Confused(flat, p, n, i, k) ==> StandsFor(flat, p, k, i)
  }

  lemma {:induction false} NumberTaken(flat: seq<bool>, p: nat, n: nat, m: nat) returns (k: nat)
    requires m < MixedBefore(flat, p, n)
    ensures k < n && Mixed(flat, p, k) && MixedBefore(flat, p, k) == m
  {
    hide Mixed;
    if MixedBefore(flat, p, n - 1) <= m { k := n - 1; } else { k := NumberTaken(flat, p, n - 1, m); }
  }

  /** The block whose number the byte in the lookup array stands for. */
  lemma Mistaken(flat: seq<bool>, p: nat, n: nat, i: nat) returns (k: nat)
    requires i < n
    ensures k < n && NumberOf(flat, p, n, k) == NumberOf(flat, p, n, i) % 256
    ensures NumberOf(flat, p, n, i) < 256 ==> k == i
  {
    hide AllSet, AllUnset, MixedBefore;
    var m := NumberOf(flat, p, n, i);
    MixedGrows(flat, p, i, n);
    if m < 256 {
      k := i;
    } else {
      assert m % 256 <= m - 256;
      k := NumberTaken(flat, p, n, m % 256);
    }
  }

  lemma StandsForItself(flat: seq<bool>, p: nat, i: nat)
    ensures StandsFor(flat, p, i, i)
  {
  }

  /** What the generated table is for. */
  ghost predicate Agrees(c: Compiled, flat: seq<bool>) {
    InBounds(c) && forall cp: nat :: TableLookup(c, cp) <==> cp < |flat| && flat[cp]
  }

  lemma FitAgrees(c: Compiled, flat: seq<bool>, cp: nat)
    requires c.radix >= 3 && Generated(c, flat) && InBounds(c) && cp < |flat|
    requires NumbersFit(flat, Pow2(c.radix), |c.lookup|)
    requires forall i :: 0 <= i < |c.lookup| ==> c.lookup[i] == NumberOf(flat, Pow2(c.radix), |c.lookup|, i) % 256
    ensures TableLookup(c, cp) <==> flat[cp]
  {
    var p, n := Pow2(c.radix), |c.lookup|;
    assert n == DivideCeil(|flat|, p) by { hide Pow2, BlockBytes, NumberOf, At, ReadsAs, Blocks; }
    BlockExists(cp, |flat|, c.radix);
    var i, j := BlockOf(cp, c.radix), WithinBlock(cp, c.radix);
    var k := Mistaken(flat, p, n, i);
    OffsetIsRow(0, c.radix, cp);
    hide Generated, TableLookup, InBounds, Pow2, BlockOf, WithinBlock, NumberOf, Emitted, DivideCeil, At;
    StandsForItself(flat, p, i);
    assert StandsFor(flat, p, k, i);
    LookupEmits(c, flat, cp, k);
    assert InTable(flat, p, i, j) && Entry(flat, p, i, j) == flat[cp];
  }

  lemma PastTheEnd(c: Compiled, flat: seq<bool>, cp: nat)
    requires Generated(c, flat) && InBounds(c) && cp >= |flat|
    ensures !TableLookup(c, cp)
  {
    hide Pow2, BlockBytes, NumberOf, At, ReadsAs, Blocks, InBounds, DivideCeil, Offset, BlockOf;
  }

  lemma AgreesFit(c: Compiled, flat: seq<bool>, i: nat, k: nat)
    requires c.radix >= 3 && Generated(c, flat) && Agrees(c, flat)
    requires i < |c.lookup| && k < |c.lookup|
    requires c.lookup[i] == NumberOf(flat, Pow2(c.radix), |c.lookup|, i) % 256
    requires NumberOf(flat, Pow2(c.radix), |c.lookup|, k) == NumberOf(flat, Pow2(c.radix), |c.lookup|, i) % 256
    ensures StandsFor(flat, Pow2(c.radix), k, i)
  {
    var p := Pow2(c.radix);
    forall j | 0 <= j < p && InTable(flat, p, i, j) ensures Emitted(flat, p, k, j) <==> Entry(flat, p, i, j) {
      var cp := At(i, p, j);
      RowUnique(i, p, j);
      assert BlockOf(cp, c.radix) == i && WithinBlock(cp, c.radix) == j;
      hide Generated, TableLookup, InBounds, Pow2, BlockOf, WithinBlock, NumberOf, Emitted, DivideCeil, At;
      LookupEmits(c, flat, cp, k);
      assert TableLookup(c, cp) <==> flat[cp];
    }
  }

  /** The reader computes the flat table, and false past its end, exactly if the numbers fit. */
  lemma ReaderAgrees(c: Compiled, flat: seq<bool>)
    requires c.radix >= 3 && Generated(c, flat)
    ensures Agrees(c, flat) <==> NumbersFit(flat, Pow2(c.radix), |c.lookup|)
  {
    var p, n := Pow2(c.radix), |c.lookup|;
    WholeBytes(c.radix);
    assert forall i :: 0 <= i < n ==> c.lookup[i] == NumberOf(flat, p, n, i) % 256 by {
      hide NumberOf, At, BlockBytes, Pow2, ReadsAs, Blocks, DivideCeil;
    }
    ReaderInBounds(c, flat);
    hide Pow2, NumberOf, Generated, TableLookup, InBounds, StandsFor;
    if NumbersFit(flat, p, n) {
      forall cp: nat ensures TableLookup(c, cp) <==> cp < |flat| && flat[cp] {
        if cp < |flat| { FitAgrees(c, flat, cp); } else { PastTheEnd(c, flat, cp); }
      }
    }
    if Agrees(c, flat) {
      forall i, k | 0 <= i < n && 0 <= k < n && Confused(flat, p, n, i, k)
        ensures StandsFor(flat, p, k, i)
      {
        AgreesFit(c, flat, i, k);
      }
    }
  }

  /** In particular whenever at most 256 blocks are emitted. */
  lemma FewBlocksFit(flat: seq<bool>, p: nat, n: nat)
    requires Blocks(flat, p, n) <= 256
    ensures NumbersFit(flat, p, n)
  {
    hide NumberOf, StandsFor, Blocks;
    forall i | 0 <= i < n ensures NumberOf(flat, p, n, i) < 256 {
      NumbersInRange(flat, p, n, i);
    }
  }

  /** 257 mixed blocks of eight bits: bit 0 in each but the last, bit 1 in the last. */
  function TooManyBlocks(): (flat: seq<bool>) {
    seq(8 * 257, k => if 0 <= k < 8 * 256 then k % 8 == 0 else k % 8 == 1)
  }

  lemma {:induction false} AllMixed(i: nat)
    requires i <= 257
    ensures MixedBefore(TooManyBlocks(), 8, i) == i
    ensures i < 257 ==> Mixed(TooManyBlocks(), 8, i)
  {
    var flat := TooManyBlocks();
    if i > 0 { AllMixed(i - 1); }
    if i < 257 {
      assert InTable(flat, 8, i, 0) && InTable(flat, 8, i, 1);
      assert Entry(flat, 8, i, 0) == (i < 256) && Entry(flat, 8, i, 1) == (i == 256);
    }
  }

  lemma TooManyDoNotFit()
    ensures !NumbersFit(TooManyBlocks(), 8, 257)
  {
    var flat := TooManyBlocks();
    AllMixed(0);
    AllMixed(256);
    assert !StandsFor(flat, 8, 0, 256) by {
      assert InTable(flat, 8, 256, 0) && !Entry(flat, 8, 256, 0) && Emitted(flat, 8, 0, 0);
    }
    hide MixedBefore, TooManyBlocks, AllSet, AllUnset, StandsFor;
    assert NumberOf(flat, 8, 257, 256) == 256 && NumberOf(flat, 8, 257, 0) == 0;
    assert Confused(flat, 8, 257, 256, 0);
  }

  lemma TooManySizes()
    ensures Pow2(3) == 8 && DivideCeil(|TooManyBlocks()|, 8) == 257
  {
  }

  /** One block more than a byte can number, and the reader goes wrong: block 256 reads as block 0. */
  lemma OneBlockTooMany(c: Compiled)
    requires c.radix == 3 && Generated(c, TooManyBlocks())
    ensures !Agrees(c, TooManyBlocks())
  {
    var flat := TooManyBlocks();
    hide *;
    Sizes(c, flat);
    TooManySizes();
    TooManyDoNotFit();
    ReaderAgrees(c, flat);
  }

  /** The first pass over a block: is every bit of it that lies in the table set, or unset? */
  method ScanBlock(flat: seq<bool>, radixNum: nat, i: nat) returns (allSet: bool, allUnset: bool)
    ensures allSet <==> AllSet(flat, radixNum, i)
    ensures allUnset <==> AllUnset(flat, radixNum, i)
  {
    hide At;
    allUnset, allSet := true, true;
    for j := 0 to radixNum
      invariant allSet <==> forall k :: 0 <= k < j && InTable(flat, radixNum, i, k) ==> Entry(flat, radixNum, i, k)
      invariant allUnset <==> forall k :: 0 <= k < j && InTable(flat, radixNum, i, k) ==> !Entry(flat, radixNum, i, k)
    {
      assert InTable(flat, radixNum, i, j) || !InTable(flat, radixNum, i, j);
      if At(i, radixNum, j) >= |flat| {
      } else if flat[At(i, radixNum, j)] {
        allUnset := false;
      } else {
        allSet := false;
      }
    }
  }

  /** The first m bits of the byte are the block's bits from position base on; the others are zero. */
  ghost predicate Gathered(byte: bv8, flat: seq<bool>, p: nat, i: nat, base: nat, m: nat) {
    forall b :: 0 <= b < 8 ==> (Bit(byte, b) <==> b < m && Entry(flat, p, i, base + b))
  }

  lemma NothingGathered(flat: seq<bool>, p: nat, i: nat, base: nat)
    ensures Gathered(0, flat, p, i, base, 0)
  {
    hide Entry, Bit;
    forall b | 0 <= b < 8 ensures !Bit(0, b) { ConstantBits(b); }
  }

  lemma OneMoreGathered(byte: bv8, flat: seq<bool>, p: nat, i: nat, base: nat, m: nat)
    requires m < 8 && Gathered(byte, flat, p, i, base, m)
    ensures Gathered(byte | if Entry(flat, p, i, base + m) then Mask(m) else 0, flat, p, i, base, m + 1)
    ensures !Entry(flat, p, i, base + m) ==> Gathered(byte, flat, p, i, base, m + 1)
  {
    hide Entry, Bit;
    var next := byte | if Entry(flat, p, i, base + m) then Mask(m) else 0;
    assert byte | 0 == byte;
    forall b | 0 <= b < 8 ensures Bit(next, b) <==> b < m + 1 && Entry(flat, p, i, base + b) {
      OrBit(byte, m, b);
      assert b == m ==> base + b == base + m;
    }
  }

  /** Bit k%8 of the byte k/8 behind start is bit k of block i. */
  ghost predicate WrittenBit(tbl: seq<bv8>, start: nat, flat: seq<bool>, p: nat, i: nat, k: nat) {
    start + k / 8 < |tbl| && (Bit(tbl[start + k / 8], k % 8) <==> Entry(flat, p, i, k))
  }

  /** The bytes from start on hold the first m bits of block i. */
  ghost predicate Written(tbl: seq<bv8>, start: nat, flat: seq<bool>, p: nat, i: nat, m: nat) {
    forall k :: 0 <= k < m ==> WrittenBit(tbl, start, flat, p, i, k)
  }

  lemma OneMoreByte(tbl: seq<bv8>, start: nat, byte: bv8, flat: seq<bool>, p: nat, i: nat, m: nat)
    requires m % 8 == 0 && |tbl| == start + m / 8
    requires Written(tbl, start, flat, p, i, m) && Gathered(byte, flat, p, i, m, 8)
    ensures Written(tbl + [byte], start, flat, p, i, m + 8)
  {
    hide Entry, Bit;
    forall k | 0 <= k < m + 8 ensures WrittenBit(tbl + [byte], start, flat, p, i, k) {
      if k < m {
        assert WrittenBit(tbl, start, flat, p, i, k);
      } else {
        assert k == m + k % 8;
      }
    }
  }

  lemma EntryBit(flat: seq<bool>, p: nat, i: nat, j: nat)
    ensures Entry(flat, p, i, j) <==> At(i, p, j) < |flat| && flat[At(i, p, j)]
  {
  }

  /** The second pass: the block's bits gathered into bytes, the last block padded with zeros. */
  method EmitBlock(flat: seq<bool>, radixNum: nat, i: nat, before: seq<bv8>) returns (tbl: seq<bv8>)
    requires radixNum % 8 == 0
    ensures |tbl| == |before| + radixNum / 8 && tbl[..|before|] == before
    ensures Written(tbl, |before|, flat, radixNum, i, radixNum)
  {
    tbl := before;
    var currentByte: bv8 := 0;
    ghost var base, out := 0, [];
    NothingGathered(flat, radixNum, i, 0);
    assert Written(out, 0, flat, radixNum, i, 0);
    hide *;
    for j := 0 to radixNum
      invariant base % 8 == 0 && base <= j < base + 8
      invariant tbl == before + out && |out| == base / 8
      invariant Written(out, 0, flat, radixNum, i, base)
      invariant Gathered(currentByte, flat, radixNum, i, base, j - base)
    {
      assert j % 8 == j - base;
      EntryBit(flat, radixNum, i, j);
      OneMoreGathered(currentByte, flat, radixNum, i, base, j - base);
      if At(i, radixNum, j) < |flat| {
        currentByte := currentByte | if flat[At(i, radixNum, j)] then Mask(j % 8) else 0;
      }
      if j % 8 == 7 {
        OneMoreByte(out, 0, currentByte, flat, radixNum, i, base);
        tbl := tbl + [currentByte];
        out := out + [currentByte];
        currentByte := 0;
        base := base + 8;
        NothingGathered(flat, radixNum, i, base);
      }
    }
    WrittenBehind(before, out, flat, radixNum, i, radixNum);
  }

  lemma WrittenBehind(before: seq<bv8>, out: seq<bv8>, flat: seq<bool>, p: nat, i: nat, m: nat)
    requires Written(out, 0, flat, p, i, m)
    ensures Written(before + out, |before|, flat, p, i, m)
  {
    hide Entry, Bit;
    forall k | 0 <= k < m ensures WrittenBit(before + out, |before|, flat, p, i, k) {
      assert WrittenBit(out, 0, flat, p, i, k);
    }
  }

  /** tbl is before, followed by one more block of the given byte if it is needed. */
  ghost predicate Shared(before: seq<bv8>, tbl: seq<bv8>, e: nat, byte: bv8, needed: bool) {
    && |tbl| == |before| + (if needed then e else 0)
    && tbl[..|before|] == before
    && forall j :: |before| <= j < |tbl| ==> tbl[j] == byte
  }

  /** The bytes of a shared block, emitted only when some block needs it. */
  method EmitShared(levelSize: nat, byte: bv8, needed: bool, before: seq<bv8>) returns (tbl: seq<bv8>)
    ensures Shared(before, tbl, levelSize, byte, needed)
  {
    tbl := before;
    if needed {
      for j := 0 to levelSize
        invariant |tbl| == |before| + j && tbl[..|before|] == before
        invariant forall k :: |before| <= k < |tbl| ==> tbl[k] == byte
      {
        tbl := tbl + [byte];
      }
    }
  }

  /** The blocks before i that are neither full nor empty are emitted in order and named. */
  ghost predicate Named(flat: seq<bool>, e: nat, i: nat, tbl: seq<bv8>, names: map<nat, nat>) {
    && |tbl| == At(MixedBefore(flat, 8 * e, i), e, 0)
    && forall k :: 0 <= k < i && Mixed(flat, 8 * e, k) ==>
      k in names && names[k] == MixedBefore(flat, 8 * e, k) && ReadsAs(tbl, e, names[k], flat, k)
  }

  lemma OneMoreNamed(flat: seq<bool>, e: nat, i: nat, before: seq<bv8>, tbl: seq<bv8>, names: map<nat, nat>)
    requires Named(flat, e, i, before, names)
    requires Mixed(flat, 8 * e, i)
    requires |tbl| == |before| + e && tbl[..|before|] == before
    requires Written(tbl, |before|, flat, 8 * e, i, 8 * e)
    ensures Named(flat, e, i + 1, tbl, names[i := MixedBefore(flat, 8 * e, i)])
  {
    var n := MixedBefore(flat, 8 * e, i);
    assert forall j: nat :: At(n, e, j) == |before| + j;
    RowsInOrder(n, n + 1, e);
    assert forall j {:trigger Entry(flat, 8 * e, i, j)} :: Emitted(flat, 8 * e, i, j) == Entry(flat, 8 * e, i, j);
    assert ReadsAs(tbl, e, n, flat, i) by {
      hide At, Bit, Entry, InTable, Mixed, Emitted;
      forall j | 0 <= j < 8 * e ensures BitReads(tbl, e, n, flat, i, j) {
        assert Emitted(flat, 8 * e, i, j) == Entry(flat, 8 * e, i, j);
        assert WrittenBit(tbl, |before|, flat, 8 * e, i, j);
      }
    }
    hide At, Bit, Entry, InTable, Mixed, ReadsAs;
    assert tbl == before + tbl[|before|..];
    forall k | 0 <= k < i && Mixed(flat, 8 * e, k) ensures ReadsAs(tbl, e, names[k], flat, k) {
      ReadsAsKept(before, tbl[|before|..], e, names[k], flat, k);
    }
  }

  lemma SharedReads(flat: seq<bool>, e: nat, n: nat, i: nat, before: seq<bv8>, tbl: seq<bv8>, byte: bv8)
    requires |before| == At(n, e, 0) && |tbl| == |before| + e
    requires forall j :: |before| <= j < |tbl| ==> tbl[j] == byte
    requires || (byte == 0xff && AllSet(flat, 8 * e, i))
             || (byte == 0 && !AllSet(flat, 8 * e, i) && AllUnset(flat, 8 * e, i))
    ensures ReadsAs(tbl, e, n, flat, i)
  {
    assert forall j: nat :: At(n, e, j) == |before| + j;
    hide At, Bit;
    forall j | 0 <= j < 8 * e ensures BitReads(tbl, e, n, flat, i, j) {
      ConstantBits(j % 8);
      assert InTable(flat, 8 * e, i, j) || !InTable(flat, 8 * e, i, j);
    }
  }

  lemma BlockRead(flat: seq<bool>, e: nat, n: nat, i: nat, named: seq<bv8>, full: seq<bv8>, tbl: seq<bv8>,
    names: map<nat, nat>)
    requires i < n
    requires Named(flat, e, n, named, names)
    requires Shared(named, full, e, 0xff, SomeSet(flat, 8 * e, n))
    requires Shared(full, tbl, e, 0, SomeUnset(flat, 8 * e, n))
    ensures ReadsAs(tbl, e, NumberOf(flat, 8 * e, n, i), flat, i)
    ensures !AllSet(flat, 8 * e, i) && !AllUnset(flat, 8 * e, i) ==>
      i in names && names[i] == NumberOf(flat, 8 * e, n, i)
  {
    var m := MixedBefore(flat, 8 * e, n);
    RowsInOrder(m, m + 1, e);
    assert full == named + full[|named|..] && tbl == full + tbl[|full|..];
    hide AllSet, AllUnset, MixedBefore, ReadsAs;
    assert At(m, e, e) == At(m, e, 0) + e;
    hide At;
    if AllSet(flat, 8 * e, i) {
      SharedReads(flat, e, m, i, named, full, 0xff);
      ReadsAsKept(full, tbl[|full|..], e, m, flat, i);
    } else if AllUnset(flat, 8 * e, i) {
      SharedReads(flat, e, NumberOf(flat, 8 * e, n, i), i, full, tbl, 0);
    } else {
      ReadsAsKept(named, full[|named|..], e, names[i], flat, i);
      ReadsAsKept(full, tbl[|full|..], e, names[i], flat, i);
    }
  }

  lemma TableLength(flat: seq<bool>, e: nat, n: nat, named: seq<bv8>, full: seq<bv8>, tbl: seq<bv8>,
    names: map<nat, nat>)
    requires Named(flat, e, n, named, names)
    requires Shared(named, full, e, 0xff, SomeSet(flat, 8 * e, n))
    requires Shared(full, tbl, e, 0, SomeUnset(flat, 8 * e, n))
    ensures |tbl| == At(Blocks(flat, 8 * e, n), e, 0)
  {
    hide At, MixedBefore, SomeSet, SomeUnset;
    var m := MixedBefore(flat, 8 * e, n);
    RowsInOrder(m, m + 1, e);
    RowsInOrder(m + 1, m + 2, e);
  }

  lemma NothingNamed(flat: seq<bool>, e: nat)
    ensures Named(flat, e, 0, [], map[]) && MixedBefore(flat, 8 * e, 0) == 0
    ensures !SomeSet(flat, 8 * e, 0) && !SomeUnset(flat, 8 * e, 0)
  {
  }

  lemma PassBlock(flat: seq<bool>, e: nat, i: nat, tbl: seq<bv8>, names: map<nat, nat>)
    requires Named(flat, e, i, tbl, names)
    ensures AllSet(flat, 8 * e, i) || AllUnset(flat, 8 * e, i) ==>
      Named(flat, e, i + 1, tbl, names) && MixedBefore(flat, 8 * e, i + 1) == MixedBefore(flat, 8 * e, i)
    ensures !AllSet(flat, 8 * e, i) && !AllUnset(flat, 8 * e, i) ==>
      Mixed(flat, 8 * e, i) && MixedBefore(flat, 8 * e, i + 1) == MixedBefore(flat, 8 * e, i) + 1
    ensures SomeSet(flat, 8 * e, i + 1) <==> SomeSet(flat, 8 * e, i) || AllSet(flat, 8 * e, i)
    ensures SomeUnset(flat, 8 * e, i + 1) <==> SomeUnset(flat, 8 * e, i) || AllUnset(flat, 8 * e, i)
  {
    hide AllSet, AllUnset, ReadsAs, At;
  }

  /** The lookup entry of a block is the number of the shared block or its own name. */
  lemma EntryIsNumber(flat: seq<bool>, p: nat, n: nat, i: nat)
    ensures AllSet(flat, p, i) ==> NumberOf(flat, p, n, i) == MixedBefore(flat, p, n)
    ensures !AllSet(flat, p, i) && AllUnset(flat, p, i) ==>
      NumberOf(flat, p, n, i) == MixedBefore(flat, p, n) + if SomeSet(flat, p, n) then 1 else 0
  {
  }

  lemma NeededSomewhere(flat: seq<bool>, p: nat, n: nat, i: nat)
    requires i < n
    ensures AllSet(flat, p, i) ==> SomeSet(flat, p, n)
    ensures AllUnset(flat, p, i) ==> SomeUnset(flat, p, n)
  {
    hide AllSet, AllUnset;
  }

  lemma Assemble(flat: seq<bool>, radix: nat, c: Compiled)
    requires radix >= 3
    requires c.radix == radix && c.size == |flat| && |c.lookup| == DivideCeil(|flat|, Pow2(radix))
    requires |c.tbl| == At(Blocks(flat, Pow2(radix), |c.lookup|), BlockBytes(radix), 0)
    requires forall i :: 0 <= i < |c.lookup| ==> c.lookup[i] == NumberOf(flat, Pow2(radix), |c.lookup|, i) % 256
    requires forall i :: 0 <= i < |c.lookup| ==>
      ReadsAs(c.tbl, BlockBytes(radix), NumberOf(flat, Pow2(radix), |c.lookup|, i), flat, i)
    ensures Generated(c, flat)
  {
    WholeBytes(radix);
    hide At, Pow2, BlockBytes, NumberOf, ReadsAs, Blocks, DivideCeil;
  }

  /** The lookup array: one byte per block, naming its number. */
  method EmitLookup(ghost flat: seq<bool>, ghost e: nat, n: nat, allSetMap: array<bool>, allUnsetMap: array<bool>,
    tblFull: nat, tblNull: nat, names: map<nat, nat>)
    returns (lookup: seq<nat>)
    requires allSetMap.Length == n && allUnsetMap.Length == n
    requires forall k :: 0 <= k < n ==> (allSetMap[k] <==> AllSet(flat, 8 * e, k))
    requires forall k :: 0 <= k < n ==> (allUnsetMap[k] <==> AllUnset(flat, 8 * e, k))
    requires SomeSet(flat, 8 * e, n) ==> tblFull == MixedBefore(flat, 8 * e, n)
    requires SomeUnset(flat, 8 * e, n) ==>
      tblNull == MixedBefore(flat, 8 * e, n) + if SomeSet(flat, 8 * e, n) then 1 else 0
    requires forall k :: 0 <= k < n && !AllSet(flat, 8 * e, k) && !AllUnset(flat, 8 * e, k) ==>
      k in names && names[k] == NumberOf(flat, 8 * e, n, k)
    ensures |lookup| == n
    ensures forall k :: 0 <= k < n ==> lookup[k] == NumberOf(flat, 8 * e, n, k) % 256
  {
    hide *;
    lookup := [];
    for i := 0 to n
      invariant |lookup| == i
      invariant forall k :: 0 <= k < i ==> lookup[k] == NumberOf(flat, 8 * e, n, k) % 256
    {
      EntryIsNumber(flat, 8 * e, n, i);
      NeededSomewhere(flat, 8 * e, n, i);
      if allSetMap[i] {
        lookup := lookup + [tblFull % 256];
      } else if allUnsetMap[i] {
        lookup := lookup + [tblNull % 256];
      } else {
        lookup := lookup + [names[i] % 256];
      }
    }
  }

  /**
   * The first loop of the compiler: which blocks are full or empty, and the bytes of the others as
   * they come, each under its own name.
   */
  method EmitMixed(flat: seq<bool>, radixNum: nat, n: nat, ghost e: nat, allSetMap: array<bool>,
                   allUnsetMap: array<bool>)
    returns (tbl: seq<bv8>, tableIndex: nat, names: map<nat, nat>, needFull: bool, needNull: bool)
    requires radixNum == 8 * e
    requires allSetMap.Length == n && allUnsetMap.Length == n && allSetMap != allUnsetMap
    modifies allSetMap, allUnsetMap
    ensures forall k :: 0 <= k < n ==> (allSetMap[k] <==> AllSet(flat, 8 * e, k))
    ensures forall k :: 0 <= k < n ==> (allUnsetMap[k] <==> AllUnset(flat, 8 * e, k))
    ensures needFull <==> SomeSet(flat, 8 * e, n)
    ensures needNull <==> SomeUnset(flat, 8 * e, n)
    ensures tableIndex == MixedBefore(flat, 8 * e, n)
    ensures Named(flat, e, n, tbl, names)
  {
    hide *;
    needNull, needFull := false, false;
    tbl, tableIndex, names := [], 0, map[];
    NothingNamed(flat, e);
    for i := 0 to n
      invariant forall k :: 0 <= k < i ==> (allSetMap[k] <==> AllSet(flat, 8 * e, k))
      invariant forall k :: 0 <= k < i ==> (allUnsetMap[k] <==> AllUnset(flat, 8 * e, k))
      invariant needFull <==> SomeSet(flat, 8 * e, i)
      invariant needNull <==> SomeUnset(flat, 8 * e, i)
      invariant tableIndex == MixedBefore(flat, 8 * e, i)
      invariant Named(flat, e, i, tbl, names)
    {
      PassBlock(flat, e, i, tbl, names);
      var allSet, allUnset := ScanBlock(flat, radixNum, i);
      allSetMap[i] := allSet;
      allUnsetMap[i] := allUnset;
      needNull := needNull || allUnset;
      needFull := needFull || allSet;
      if !(allSet || allUnset) {
        var before := tbl;
        ghost var oldNames := names;
        names := names[i := tableIndex];
        tableIndex := tableIndex + 1;
        tbl := EmitBlock(flat, radixNum, i, before);
        OneMoreNamed(flat, e, i, before, tbl, oldNames);
      }
    }
  }

  /** The compiler: the mixed blocks, then the two shared blocks, then the lookup array. */
  method PrintRadixTable(flat: seq<bool>, radix: nat) returns (c: Compiled)
    requires radix >= 3
    ensures c.radix == radix && Generated(c, flat)
  {
    WholeBytes(radix);
    var radixNum := Pow2(radix);
    var level1Size := DivideCeil(|flat|, radixNum);
    var level2Size := radixNum / 8;
    assert level2Size == BlockBytes(radix);
    hide *;
    var allSetMap, allUnsetMap := new bool[level1Size], new bool[level1Size];
    var named, tableIndex, names, needFull, needNull :=
      EmitMixed(flat, radixNum, level1Size, level2Size, allSetMap, allUnsetMap);
    var tblFull := tableIndex;
    var full := EmitShared(level2Size, 0xff, needFull, named);
    if needFull {
      tableIndex := tableIndex + 1;
    }
    var tblNull := tableIndex;
    var tbl := EmitShared(level2Size, 0, needNull, full);
    TableLength(flat, level2Size, level1Size, named, full, tbl, names);
    forall i | 0 <= i < level1Size
      ensures ReadsAs(tbl, level2Size, NumberOf(flat, 8 * level2Size, level1Size, i), flat, i)
      ensures !AllSet(flat, 8 * level2Size, i) && !AllUnset(flat, 8 * level2Size, i) ==>
        i in names && names[i] == NumberOf(flat, 8 * level2Size, level1Size, i)
    {
      BlockRead(flat, level2Size, level1Size, i, named, full, tbl, names);
    }
    var lookup := EmitLookup(flat, level2Size, level1Size, allSetMap, allUnsetMap, tblFull, tblNull, names);
    c := Compiled(lookup, tbl, |flat|, radix);
    Assemble(flat, radix, c);
  }
}
