/**
 * From parsed ranges of code points to the generated table and the column width of a code point.
 */
module WidthRanges {
  import opened Powers
  import opened WidthTable

  datatype Range = Range(start: nat, end: nat)

  const INT_MAX: nat := 0x7fff_ffff

  predicate InRange(r: Range, cp: nat) {
    r.start <= cp <= r.end
  }

  ghost predicate Covered(ranges: seq<Range>, cp: nat) {
    exists r :: r in ranges && InRange(r, cp)
  }

  /** A range covers its two ends and what lies between; ranges cover what one of them covers. */
  lemma CoveredByOne(ranges: seq<Range>, start: nat, end: nat, cp: nat)
    ensures Covered(ranges + [Range(start, end)], cp) <==> Covered(ranges, cp) || start <= cp <= end
    ensures !Covered([], cp)
  {
    if start <= cp <= end { assert Range(start, end) in ranges + [Range(start, end)]; }
    forall r | r in ranges && InRange(r, cp)
      ensures r in ranges + [Range(start, end)]
    {
    }
  }

  /** What find_max has found so far, after one more range: the start is looked at only if the end is not larger. */
  function Larger(max: nat, r: Range): nat {
    if r.end > max then r.end else if r.start > max then r.start else max
  }

  function Largest(ranges: seq<Range>): nat {
    if ranges == [] then 0 else Larger(Largest(ranges[..|ranges| - 1]), ranges[|ranges| - 1])
  }

  /** A range's start is taken into account exactly if its end is not new, or not before its start. */
  lemma StartTaken(max: nat, r: Range)
    ensures r.start <= Larger(max, r) <==> r.end <= max || r.start <= r.end
  {
  }

  /** A reversed range whose start lies beyond the size. */
  lemma StartMissed()
    ensures Largest([Range(9, 5)]) == 5 < 9
  {
    assert [Range(9, 5)][..0] == [];
  }

  lemma {:induction false} LargestBounds(ranges: seq<Range>)
    ensures forall r :: r in ranges ==> r.end <= Largest(ranges) && (r.start <= r.end ==> r.start <= Largest(ranges))
    ensures Largest(ranges) == 0 || exists r :: r in ranges && (Largest(ranges) == r.start || Largest(ranges) == r.end)
  {
    if ranges != [] {
      var front, last := ranges[..|ranges| - 1], ranges[|ranges| - 1];
      LargestBounds(front);
      assert ranges == front + [last] && last in ranges;
      assert forall r :: r in front ==> r in ranges;
    }
  }

  /**
   * A size that holds every range: one more than some endpoint, or 1. The start of a reversed range
   * may lie beyond it, which is harmless because such a range marks nothing.
   */
  method FindMax(ranges: seq<Range>) returns (size: nat)
    requires forall r :: r in ranges ==> r.start < INT_MAX && r.end < INT_MAX
    ensures size == Largest(ranges) + 1 <= 0x7fff_ffff
    ensures forall r :: r in ranges ==> r.end < size && (r.start <= r.end ==> r.start < size)
    ensures size == 1 || exists r :: r in ranges && (size == r.start + 1 || size == r.end + 1)
  {
    var max := 0;
    for i := 0 to |ranges|
      invariant max == Largest(ranges[..i]) < INT_MAX
    {
      var range := ranges[i];
      assert ranges[..i + 1][..i] == ranges[..i];
      if range.end > max {
        max := range.end;
      } else if range.start > max {
        max := range.start;
      }
    }
    assert ranges[..|ranges|] == ranges;
    LargestBounds(ranges);
    size := max + 1;
  }

  lemma NothingCovered(cp: nat)
    ensures !Covered([], cp)
  {
  }

  lemma OneMoreRange(ranges: seq<Range>, i: nat, cp: nat)
    requires i < |ranges|
    ensures Covered(ranges[..i + 1], cp) <==> Covered(ranges[..i], cp) || InRange(ranges[i], cp)
  {
    assert ranges[..i + 1] == ranges[..i] + [ranges[i]];
    assert ranges[i] in ranges[..i + 1];
  }

  /** Marks every code point of every range; a reversed range marks nothing. */
  method GenerateFlatTable(ranges: seq<Range>, size: nat) returns (table: array<bool>)
    requires forall r :: r in ranges ==> r.end < size
    ensures fresh(table) && table.Length == size
    ensures forall cp :: 0 <= cp < size ==> (table[cp] <==> Covered(ranges, cp))
  {
    hide Covered;
    table := new bool[size](_ => false);
    forall cp | 0 <= cp < size ensures !Covered(ranges[..0], cp) { NothingCovered(cp); }
    for l := 0 to |ranges|
      invariant fresh(table)
      invariant forall cp :: 0 <= cp < size ==> (table[cp] <==> Covered(ranges[..l], cp))
    {
      var range := ranges[l];
      ghost var was := table[..];
      var i := range.start;
      while i <= range.end
        invariant range.start <= i
        invariant i <= range.end + 1 || i == range.start
        invariant forall cp :: 0 <= cp < size ==> (table[cp] <==> was[cp] || range.start <= cp < i)
      {
        table[i] := true;
        i := i + 1;
      }
      forall cp | 0 <= cp < size ensures table[cp] <==> Covered(ranges[..l + 1], cp) {
        OneMoreRange(ranges, l, cp);
      }
    }
    assert ranges[..|ranges|] == ranges;
  }

  /** The generator as a whole: the table it emits for the ranges. */
  method Generate(ranges: seq<Range>, radix: nat) returns (c: Compiled, ghost flat: seq<bool>)
    requires radix >= 3
    requires forall r :: r in ranges ==> r.start < INT_MAX && r.end < INT_MAX
    ensures c.radix == radix && c.size == |flat| > 0 && Generated(c, flat)
    ensures forall cp: nat :: cp < |flat| && flat[cp] <==> Covered(ranges, cp)
  {
    hide *;
    var size := FindMax(ranges);
    var table := GenerateFlatTable(ranges, size);
    flat := table[..];
    forall cp: nat | Covered(ranges, cp) ensures cp < size {
      CoveredBelow(ranges, cp, size);
    }
    c := PrintRadixTable(table[..], radix);
    Sizes(c, flat);
  }

  lemma CoveredBelow(ranges: seq<Range>, cp: nat, size: nat)
    requires Covered(ranges, cp) && forall r :: r in ranges ==> r.end < size
    ensures cp < size
  {
  }

  /** cx_cp_width */
  function CpWidth(zero: Compiled, double: Compiled, cp: nat): (columns: nat)
    requires InBounds(zero) && InBounds(double)
    ensures columns <= 2
  {
    (if TableLookup(double, cp) then 1 else 0) + (if TableLookup(zero, cp) then 0 else 1)
  }

  /** A code point in the wide ranges takes a column more, one in the zero-width ranges a column less. */
  lemma WidthByRanges(zero: Compiled, double: Compiled, zeroFlat: seq<bool>, doubleFlat: seq<bool>,
    narrow: seq<Range>, wide: seq<Range>, cp: nat)
    requires zero.radix >= 3 && Generated(zero, zeroFlat) && NumbersFit(zeroFlat, Pow2(zero.radix), |zero.lookup|)
    requires double.radix >= 3 && Generated(double, doubleFlat)
             && NumbersFit(doubleFlat, Pow2(double.radix), |double.lookup|)
    requires cp < |zeroFlat| && zeroFlat[cp] <==> Covered(narrow, cp)
    requires cp < |doubleFlat| && doubleFlat[cp] <==> Covered(wide, cp)
    ensures InBounds(zero) && InBounds(double)
    ensures CpWidth(zero, double, cp) ==
            1 + (if Covered(wide, cp) then 1 else 0) - (if Covered(narrow, cp) then 1 else 0)
  {
    hide Pow2, NumbersFit, Generated, TableLookup, InBounds;
    ReaderAgrees(zero, zeroFlat);
    ReaderAgrees(double, doubleFlat);
  }
}
