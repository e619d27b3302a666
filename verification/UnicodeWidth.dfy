/**
 * Column counting and column indexing of unicode-width.c, over any pair of generated tables.
 */
module UnicodeWidth {
  import opened WidthTable
  import opened WidthRanges
  import opened Utf8

  /** The zero-width and the double-width table. */
  datatype Tables = Tables(zero: Compiled, double: Compiled)

  ghost predicate Good(t: Tables) {
    InBounds(t.zero) && InBounds(t.double)
  }

  function Width(t: Tables, c: bv32): (columns: nat)
    requires Good(t)
  {
    CpWidth(t.zero, t.double, c as nat)
  }

  function Columns(t: Tables, s: seq<bv32>): nat
    requires Good(t)
  {
    if s == [] then 0 else Width(t, s[0]) + Columns(t, s[1..])
  }

  /** The width of the decoded text; -1 if it does not decode. */
  function ColumnsOf(t: Tables, str: seq<bv8>): (columns: int)
    requires Good(t)
    ensures -1 <= columns
  {
    match Decode(str)
    case None => -1
    case Some(s) => Columns(t, s)
  }

  /** Adding to a result that -1 marks as failed. */
  function Ahead(done: nat, rest: int): int {
    if rest < 0 then -1 else done + rest
  }

  lemma AheadTwice(first: nat, second: nat, rest: int)
    ensures Ahead(first, Ahead(second, rest)) == Ahead(first + second, rest)
    ensures Ahead(first, -1) == -1 && Ahead(first, 0) == first
    ensures -1 <= rest ==> Ahead(0, rest) == rest
  {
  }

  lemma ColumnsFirst(t: Tables, str: seq<bv8>)
    requires Good(t) && str != []
    ensures Cp(str, Csize(str, |str|)).Malformed? ==> ColumnsOf(t, str) == -1
    ensures Cp(str, Csize(str, |str|)).Value? ==>
      var n, c := Csize(str, |str|), Cp(str, Csize(str, |str|)).cp;
      0 < n && ColumnsOf(t, str) == Ahead(Width(t, c), ColumnsOf(t, str[n..]))
  {
    var n := Csize(str, |str|);
    PositiveSize(str, n);
    hide Cp, Width, Good, Csize;
    if Cp(str, n).Value? && Decode(str[n..]).Some? {
      var s := Decode(str[n..]).value;
      assert ([Cp(str, n).cp] + s)[1..] == s;
    }
  }

  /** cx_utf8_cols */
  method Cols(t: Tables, str: seq<bv8>) returns (columns: int)
    requires Good(t)
    ensures columns == ColumnsOf(t, str)
  {
    hide Good, ColumnsOf, Columns, Width, Decode, Csize, Cp;
    columns := 0;
    var i := 0;
    assert str[0..] == str;
    while i < |str|
      invariant 0 <= columns && i <= |str|
      invariant ColumnsOf(t, str) == Ahead(columns, ColumnsOf(t, str[i..]))
      decreases |str| - i
    {
      ColumnsFirst(t, str[i..]);
      var charSize := Csize(str[i..], |str| - i);
      assert str[i..][charSize..] == str[i + charSize..];
      match Cp(str[i..], charSize) {
        case Malformed =>
          return -1;
        case Value(c) =>
          columns := columns + Width(t, c);
          i := i + charSize;
      }
    }
    assert str[i..] == [];
    NoColumns(t);
  }

  lemma NoColumns(t: Tables)
    requires Good(t)
    ensures ColumnsOf(t, []) == 0
  {
  }

  const TAB: bv8 := 9

  /** The first tab stop past a column. */
  function NextStop(column: nat, tabSize: nat): nat
    requires 0 < tabSize
  {
    (column / tabSize + 1) * tabSize
  }

  lemma NextStopIsNext(column: nat, tabSize: nat, stop: nat)
    requires 0 < tabSize
    ensures column < NextStop(column, tabSize) && NextStop(column, tabSize) % tabSize == 0
    ensures column < stop && stop % tabSize == 0 ==> NextStop(column, tabSize) <= stop
  {
    var q, k := column / tabSize, stop / tabSize;
    assert NextStop(column, tabSize) == At(q + 1, tabSize, 0);
    RowUnique(q + 1, tabSize, 0);
    RowOf(column, tabSize);
    RowOf(stop, tabSize);
    RowsInOrder(k, q, tabSize);
    RowsInOrder(q, k, tabSize);
    RowsInOrder(q, q, tabSize);
    RowsInOrder(q + 1, k, tabSize);
    WithinRow(q, tabSize, column % tabSize);
    FromRowStart(q, tabSize, column % tabSize);
    hide At;
  }

  lemma FromRowStart(n: nat, w: nat, k: nat)
    ensures At(n, w, 0) <= At(n, w, k)
  {
  }

  /** The source divides by the tab size when it meets a tab. */
  ghost predicate TabsOk(str: seq<bv8>, tabSize: nat) {
    TAB in str ==> 0 < tabSize
  }

  /** Where the given column falls; a tab rounds the target column up instead of consuming it. */
  function ColIndex(t: Tables, str: seq<bv8>, column: nat, tabSize: nat): (index: int)
    requires Good(t) && TabsOk(str, tabSize)
    ensures -1 <= index <= |str|
    decreases |str|
  {
    if str == [] then 0
    else if str[0] == TAB then Ahead(1, ColIndex(t, str[1..], NextStop(column, tabSize), tabSize))
    else
      var n := Csize(str, |str|);
      match Cp(str, n)
      case Malformed => -1
      case Value(c) =>
        PositiveSize(str, n);
        if column < Width(t, c) then 0
        else Ahead(n, ColIndex(t, str[n..], column - Width(t, c), tabSize))
  }

  lemma ColIndexFirst(t: Tables, str: seq<bv8>, column: nat, tabSize: nat)
    requires Good(t) && str != [] && TabsOk(str, tabSize)
    ensures str[0] == TAB ==>
      ColIndex(t, str, column, tabSize) == Ahead(1, ColIndex(t, str[1..], NextStop(column, tabSize), tabSize))
    ensures str[0] != TAB && Cp(str, Csize(str, |str|)).Malformed? ==> ColIndex(t, str, column, tabSize) == -1
    ensures str[0] != TAB && Cp(str, Csize(str, |str|)).Value? ==>
      var n, w := Csize(str, |str|), Width(t, Cp(str, Csize(str, |str|)).cp);
      0 < n && ColIndex(t, str, column, tabSize) ==
        if column < w then 0 else Ahead(n, ColIndex(t, str[n..], column - w, tabSize))
  {
    PositiveSize(str, Csize(str, |str|));
    hide NextStop, Width, Good, Cp, Csize;
  }

  /** The same at offset i of a longer text. */
  lemma ColIndexAt(t: Tables, str: seq<bv8>, i: nat, column: nat, tabSize: nat)
    requires Good(t) && i < |str| && TabsOk(str, tabSize)
    ensures TabsOk(str[i..], tabSize) && TabsOk(str[i + 1..], tabSize)
    ensures TabsOk(str[i + Csize(str[i..], |str| - i)..], tabSize)
    ensures str[i] == TAB ==> 0 < tabSize
    ensures str[i] == TAB ==>
      ColIndex(t, str[i..], column, tabSize) == Ahead(1, ColIndex(t, str[i + 1..], NextStop(column, tabSize), tabSize))
    ensures str[i] != TAB && Cp(str[i..], Csize(str[i..], |str| - i)).Malformed? ==>
            ColIndex(t, str[i..], column, tabSize) == -1
    ensures str[i] != TAB && Cp(str[i..], Csize(str[i..], |str| - i)).Value? ==>
      var n, w := Csize(str[i..], |str| - i), Width(t, Cp(str[i..], Csize(str[i..], |str| - i)).cp);
      0 < n && ColIndex(t, str[i..], column, tabSize) ==
        if column < w then 0 else Ahead(n, ColIndex(t, str[i + n..], column - w, tabSize))
  {
    hide NextStop, Width, Good, Cp, Csize, ColIndex;
    ColIndexFirst(t, str[i..], column, tabSize);
    assert forall n :: 0 <= n <= |str| - i ==> str[i..][n..] == str[i + n..];
  }

  /** After i bytes the loop is left with a column that falls in the rest where the first falls in all. */
  ghost predicate Comes(t: Tables, str: seq<bv8>, column: nat, tabSize: nat, i: nat, left: nat) {
    && Good(t) && TabsOk(str, tabSize) && i <= |str| && TabsOk(str[i..], tabSize)
    && ColIndex(t, str, column, tabSize) == Ahead(i, ColIndex(t, str[i..], left, tabSize))
  }

  lemma ComesFirst(t: Tables, str: seq<bv8>, column: nat, tabSize: nat)
    requires Good(t) && TabsOk(str, tabSize)
    ensures Comes(t, str, column, tabSize, 0, column)
  {
    assert str[0..] == str;
    hide ColIndex, Good;
    AheadTwice(0, 0, ColIndex(t, str, column, tabSize));
  }

  lemma ComesPastTab(t: Tables, str: seq<bv8>, column: nat, tabSize: nat, i: nat, left: nat)
    requires Comes(t, str, column, tabSize, i, left) && i < |str| && str[i] == TAB
    ensures 0 < tabSize && Comes(t, str, column, tabSize, i + 1, NextStop(left, tabSize))
  {
    hide NextStop, ColIndex, Good;
    ColIndexAt(t, str, i, left, tabSize);
    AheadTwice(i, 1, ColIndex(t, str[i + 1..], NextStop(left, tabSize), tabSize));
  }

  lemma ComesToBad(t: Tables, str: seq<bv8>, column: nat, tabSize: nat, i: nat, left: nat)
    requires Comes(t, str, column, tabSize, i, left) && i < |str| && str[i] != TAB
    requires Cp(str[i..], Csize(str[i..], |str| - i)).Malformed?
    ensures Good(t) && TabsOk(str, tabSize) && ColIndex(t, str, column, tabSize) == -1
  {
    hide NextStop, ColIndex, Cp, Csize, Good;
    ColIndexAt(t, str, i, left, tabSize);
  }

  lemma ComesPastCharacter(t: Tables, str: seq<bv8>, column: nat, tabSize: nat, i: nat, left: nat, n: nat, w: nat)
    requires Comes(t, str, column, tabSize, i, left) && i < |str| && str[i] != TAB && Good(t)
    requires n == Csize(str[i..], |str| - i) && Cp(str[i..], n).Value? && w == Width(t, Cp(str[i..], n).cp)
    ensures 0 < n && TabsOk(str, tabSize)
    ensures left < w ==> ColIndex(t, str, column, tabSize) == i
    ensures w <= left ==> Comes(t, str, column, tabSize, i + n, left - w)
  {
    hide NextStop, ColIndex, Cp, Csize, Width, Good;
    ColIndexAt(t, str, i, left, tabSize);
    if w <= left { AheadTwice(i, n, ColIndex(t, str[i + n..], left - w, tabSize)); }
  }

  lemma ComesToEnd(t: Tables, str: seq<bv8>, column: nat, tabSize: nat, left: nat)
    requires Comes(t, str, column, tabSize, |str|, left)
    ensures Good(t) && TabsOk(str, tabSize) && ColIndex(t, str, column, tabSize) == |str|
  {
    hide ColIndex, Good;
    ColIndexEnd(t, str[|str|..], left, tabSize);
  }

  /** cx_utf8_colidx */
  method ColIdx(t: Tables, str: seq<bv8>, column: nat, tabSize: nat) returns (index: int)
    requires Good(t) && TabsOk(str, tabSize)
    ensures index == ColIndex(t, str, column, tabSize)
  {
    var byteIndex, left: nat := 0, column;
    hide *;
    ComesFirst(t, str, column, tabSize);
    while byteIndex < |str|
      invariant byteIndex <= |str| && Comes(t, str, column, tabSize, byteIndex, left)
      decreases |str| - byteIndex
    {
      if str[byteIndex] == TAB {
        ComesPastTab(t, str, column, tabSize, byteIndex, left);
        left := NextStop(left, tabSize);
        byteIndex := byteIndex + 1;
        ComesWithin(t, str, column, tabSize, byteIndex, left);
        continue;
      }
      var charSize := Csize(str[byteIndex..], |str| - byteIndex);
      var cp := Cp(str[byteIndex..], charSize);
      if cp.Malformed? {
        ComesToBad(t, str, column, tabSize, byteIndex, left);
        return -1;
      }
      var charWidth := Width(t, cp.cp);
      ComesPastCharacter(t, str, column, tabSize, byteIndex, left, charSize, charWidth);
      if left < charWidth {
        return byteIndex;
      }
      left := left - charWidth;
      byteIndex := byteIndex + charSize;
      ComesWithin(t, str, column, tabSize, byteIndex, left);
    }
    ComesToEnd(t, str, column, tabSize, left);
    return byteIndex;
  }

  lemma ComesWithin(t: Tables, str: seq<bv8>, column: nat, tabSize: nat, i: nat, left: nat)
    requires Comes(t, str, column, tabSize, i, left)
    ensures i <= |str|
  {
  }

  lemma ColIndexEnd(t: Tables, str: seq<bv8>, column: nat, tabSize: nat)
    requires Good(t) && |str| == 0
    ensures TabsOk(str, tabSize) && ColIndex(t, str, column, tabSize) == 0
  {
  }

  /** A prefix that ends inside the first character does not decode. */
  lemma CutOff(t: Tables, str: seq<bv8>, q: nat)
    requires Good(t) && str != [] && 0 < q < Csize(str, |str|)
    ensures ColumnsOf(t, str[..q]) == -1
  {
    ColumnsFirst(t, str[..q]);
    hide Good, Width, Join2, Join3, Join4, ColumnsOf;
  }

  lemma SamePart(str: seq<bv8>, n: nat, q: nat)
    requires n <= q <= |str|
    ensures str[..q][n..] == str[n..][..q - n] && str[..q][..n] == str[..n]
  {
  }

  /** The first character of a prefix that holds it whole. */
  lemma FirstOfPrefix(str: seq<bv8>, q: nat)
    requires str != [] && Cp(str, Csize(str, |str|)).Value? && Csize(str, |str|) <= q <= |str|
    ensures 0 < q && 0 < Csize(str, |str|) == Csize(str[..q], q)
    ensures Cp(str[..q], Csize(str, |str|)) == Cp(str, Csize(str, |str|))
  {
    var n := Csize(str, |str|);
    PositiveSize(str, n);
    SamePart(str, n, q);
    hide Cp;
    FirstChar(str, n);
    FirstChar(str[..q], n);
  }

  /** A prefix past the first character is as wide as that character and the rest of it. */
  lemma PastFirst(t: Tables, str: seq<bv8>, q: nat)
    requires Good(t) && str != [] && Cp(str, Csize(str, |str|)).Value?
    requires Csize(str, |str|) <= q <= |str|
    ensures var n, c := Csize(str, |str|), Cp(str, Csize(str, |str|)).cp;
            0 < n && ColumnsOf(t, str[..q]) == Ahead(Width(t, c), ColumnsOf(t, str[n..][..q - n]))
  {
    hide *;
    FirstOfPrefix(str, q);
    ColumnsFirst(t, str[..q]);
    SamePart(str, Csize(str, |str|), q);
  }

  /** The first q bytes decode, to text at most that wide. */
  predicate Fits(t: Tables, str: seq<bv8>, column: nat, q: nat)
    requires Good(t) && q <= |str|
  {
    0 <= ColumnsOf(t, str[..q]) <= column
  }

  /** A byte that starts no character, right after text that fits. */
  predicate BadAt(t: Tables, str: seq<bv8>, column: nat, q: nat)
    requires Good(t) && q < |str|
  {
    Fits(t, str, column, q) && Cp(str[q..], Csize(str[q..], |str| - q)).Malformed?
  }

  lemma FitsFirst(t: Tables, str: seq<bv8>, column: nat, q: nat)
    requires Good(t) && q <= |str| && str != [] && Cp(str, Csize(str, |str|)).Value?
    ensures q == 0 ==> Fits(t, str, column, q)
    ensures 0 < q < Csize(str, |str|) ==> !Fits(t, str, column, q)
    ensures Csize(str, |str|) <= q ==>
      var n, w := Csize(str, |str|), Width(t, Cp(str, Csize(str, |str|)).cp);
      Fits(t, str, column, q) <==> w <= column && Fits(t, str[n..], column - w, q - n)
  {
    var n := Csize(str, |str|);
    if q == 0 {
      assert str[..0] == [];
    } else if q < n {
      CutOff(t, str, q);
    } else {
      PastFirst(t, str, q);
    }
    hide Good, Width, Cp, Csize;
  }

  lemma BadFirst(t: Tables, str: seq<bv8>, column: nat, q: nat)
    requires Good(t) && q < |str| && Cp(str, Csize(str, |str|)).Value?
    ensures BadAt(t, str, column, q) ==>
      var n, w := Csize(str, |str|), Width(t, Cp(str, Csize(str, |str|)).cp);
      n <= q && w <= column && BadAt(t, str[n..], column - w, q - n)
    ensures var n, w := Csize(str, |str|), Width(t, Cp(str, Csize(str, |str|)).cp);
      n <= q && w <= column && BadAt(t, str[n..], column - w, q - n) ==> BadAt(t, str, column, q)
  {
    FitsFirst(t, str, column, q);
    var n := Csize(str, |str|);
    assert str[0..] == str;
    assert n <= q ==> str[q..] == str[n..][q - n..];
    hide Good, Width, Cp, Csize, Fits;
  }

  /** The column falls after r bytes: the longest prefix that decodes to at most that many columns. */
  ghost predicate IsLongest(t: Tables, str: seq<bv8>, column: nat, r: nat)
    requires Good(t)
  {
    r <= |str| && Fits(t, str, column, r) && forall q :: r < q <= |str| ==> !Fits(t, str, column, q)
  }

  ghost predicate SomeBad(t: Tables, str: seq<bv8>, column: nat)
    requires Good(t)
  {
    exists q :: 0 <= q < |str| && BadAt(t, str, column, q)
  }

  lemma NothingLeft(t: Tables, str: seq<bv8>, column: nat)
    requires Good(t) && |str| == 0
    ensures IsLongest(t, str, column, 0) && !SomeBad(t, str, column)
  {
    assert str[..0] == [];
    hide BadAt;
  }

  lemma BadFront(t: Tables, str: seq<bv8>, column: nat)
    requires Good(t) && str != [] && Cp(str, Csize(str, |str|)).Malformed?
    ensures SomeBad(t, str, column)
  {
    assert str[0..] == str && str[..0] == [];
    hide Cp, Csize;
    assert BadAt(t, str, column, 0);
  }

  /** The first character is too wide: the empty prefix is the longest. */
  lemma WideFront(t: Tables, str: seq<bv8>, column: nat)
    requires Good(t) && str != [] && Cp(str, Csize(str, |str|)).Value?
    requires column < Width(t, Cp(str, Csize(str, |str|)).cp)
    ensures IsLongest(t, str, column, 0) && !SomeBad(t, str, column)
  {
    hide Cp, Csize, Width, Good, Fits, BadAt;
    FitsFirst(t, str, column, 0);
    forall q | 0 < q <= |str| ensures !Fits(t, str, column, q) { FitsFirst(t, str, column, q); }
    forall q | 0 <= q < |str| ensures !BadAt(t, str, column, q) { BadFirst(t, str, column, q); }
  }

  /** The first character fits: the answer lies in the rest of the text. */
  lemma FittingFront(t: Tables, str: seq<bv8>, column: nat, n: nat, rest: seq<bv8>, left: nat)
    requires Good(t) && str != [] && Cp(str, Csize(str, |str|)).Value?
    requires n == Csize(str, |str|) && 0 < n && rest == str[n..]
    requires column == left + Width(t, Cp(str, n).cp)
    ensures forall r :: IsLongest(t, rest, left, r) ==> IsLongest(t, str, column, n + r)
    ensures SomeBad(t, str, column) <==> SomeBad(t, rest, left)
  {
    hide Cp, Csize, Width, Good, Fits, BadAt;
    forall r | IsLongest(t, rest, left, r) ensures IsLongest(t, str, column, n + r) {
      FitsFirst(t, str, column, n + r);
      forall q | n + r < q <= |str| ensures !Fits(t, str, column, q) {
        FitsFirst(t, str, column, q);
        assert !Fits(t, rest, left, q - n);
      }
    }
    forall q | 0 <= q < |str| && BadAt(t, str, column, q) ensures SomeBad(t, rest, left) {
      BadFirst(t, str, column, q);
      assert BadAt(t, rest, left, q - n);
    }
    forall q | 0 <= q < |rest| && BadAt(t, rest, left, q) ensures SomeBad(t, str, column) {
      BadFirst(t, str, column, n + q);
      assert BadAt(t, str, column, n + q);
    }
  }

  /**
   * Without tabs, on any bytes: the column falls at the end of the longest prefix that is at most
   * that wide, and the search fails exactly if a bad byte follows a prefix that fits.
   */
  lemma {:induction false} LongestPrefix(t: Tables, str: seq<bv8>, column: nat, tabSize: nat)
    requires Good(t) && TAB !in str
    ensures TabsOk(str, tabSize)
    ensures 0 <= ColIndex(t, str, column, tabSize) ==> IsLongest(t, str, column, ColIndex(t, str, column, tabSize))
    ensures ColIndex(t, str, column, tabSize) == -1 <==> SomeBad(t, str, column)
    decreases |str|
  {
    hide Cp, Csize, Width, Good, IsLongest, SomeBad, ColIndex;
    if str == [] {
      ColIndexEnd(t, str, column, tabSize);
      NothingLeft(t, str, column);
    } else {
      ColIndexFirst(t, str, column, tabSize);
      var n := Csize(str, |str|);
      if Cp(str, n).Malformed? {
        BadFront(t, str, column);
      } else {
        var w := Width(t, Cp(str, n).cp);
        if column < w {
          WideFront(t, str, column);
        } else {
          LongestPrefix(t, str[n..], column - w, tabSize);
          FittingFront(t, str, column, n, str[n..], column - w);
        }
      }
    }
  }

  /** The first character of a text that decodes is the first of any text it begins. */
  lemma FirstStays(pre: seq<bv8>, more: seq<bv8>)
    requires pre != [] && Cp(pre, Csize(pre, |pre|)).Value?
    ensures Csize(pre + more, |pre + more|) == Csize(pre, |pre|) > 0
    ensures Cp(pre + more, Csize(pre, |pre|)) == Cp(pre, Csize(pre, |pre|))
    ensures (pre + more)[Csize(pre, |pre|)..] == pre[Csize(pre, |pre|)..] + more && (pre + more)[0] == pre[0]
  {
    PositiveSize(pre, Csize(pre, |pre|));
  }

  /**
   * A tab behind text that decodes: if that text is wider than the column, the column falls inside
   * it; otherwise the search goes on behind the tab, for the first tab stop past what is left of the
   * column.
   */
  lemma {:induction false} TabRounds(t: Tables, pre: seq<bv8>, rest: seq<bv8>, column: nat, tabSize: nat, stop: nat)
    requires Good(t) && 0 < tabSize && TAB !in pre && 0 <= ColumnsOf(t, pre)
    requires ColumnsOf(t, pre) <= column ==>
               stop % tabSize == 0 && column - ColumnsOf(t, pre) < stop <= column - ColumnsOf(t, pre) + tabSize
    ensures ColumnsOf(t, pre) <= column ==>
              ColIndex(t, pre + [9] + rest, column, tabSize) == Ahead(|pre| + 1, ColIndex(t, rest, stop, tabSize))
    ensures column < ColumnsOf(t, pre) ==>
              ColIndex(t, pre + [9] + rest, column, tabSize) == ColIndex(t, pre, column, tabSize)
    decreases |pre|
  {
    var str := pre + [9] + rest;
    hide Width, Good, Cp, Csize, ColIndex, ColumnsOf, NextStop;
    if pre == [] {
      NoColumns(t);
      NextStopIs(column, tabSize, stop);
      assert str[1..] == rest;
      ColIndexFirst(t, str, column, tabSize);
    } else {
      ColumnsFirst(t, pre);
      ColIndexFirst(t, pre, column, tabSize);
      FirstStays(pre, [9] + rest);
      assert str == pre + ([9] + rest);
      ColIndexFirst(t, str, column, tabSize);
      var n := Csize(pre, |pre|);
      var w := Width(t, Cp(pre, n).cp);
      assert str[n..] == pre[n..] + [9] + rest;
      if w <= column {
        TabRounds(t, pre[n..], rest, column - w, tabSize, stop);
      }
    }
  }

  /** Two multiples of a number are at least that number apart. */
  lemma MultiplesApart(x: nat, y: nat, n: nat)
    requires n > 0 && x % n == 0 && y % n == 0 && x < y
    ensures x + n <= y
  {
    RowOf(x, n);
    RowOf(y, n);
    RowsInOrder(x / n, y / n, n);
    RowsInOrder(y / n, x / n, n);
    hide At;
  }

  lemma NextStopIs(column: nat, tabSize: nat, stop: nat)
    requires 0 < tabSize && stop % tabSize == 0 && column < stop <= column + tabSize
    ensures NextStop(column, tabSize) == stop
  {
    NextStopIsNext(column, tabSize, stop);
    if NextStop(column, tabSize) < stop { MultiplesApart(NextStop(column, tabSize), stop, tabSize); }
    hide NextStop;
  }

  lemma EncodedLead(c: bv32)
    requires Scalar(c)
    ensures EncodeOne(c)[0] == TAB <==> c == 9
  {
  }

  /** Text that comes after a character that fits. */
  lemma ColIndexEncoded(t: Tables, c: bv32, rest: seq<bv8>, column: nat, tabSize: nat)
    requires Good(t) && Scalar(c) && c != 9 && TAB !in EncodeOne(c) + rest
    ensures ColIndex(t, EncodeOne(c) + rest, column, tabSize) ==
      if column < Width(t, c) then 0 else Ahead(|EncodeOne(c)|, ColIndex(t, rest, column - Width(t, c), tabSize))
  {
    StepEncoded(c, rest);
    EncodedLead(c);
    var str := EncodeOne(c) + rest;
    assert str[0] == EncodeOne(c)[0] && str[|EncodeOne(c)|..] == rest;
    hide EncodeOne, Width, Good, Cp, Csize, Scalar;
  }

  lemma {:induction false} NoTabs(s: seq<bv32>)
    requires Scalars(s) && 9 !in s
    ensures TAB !in Encode(s)
  {
    if s != [] {
      NoTabs(s[1..]);
      NoTab(s[0]);
      hide EncodeOne, Scalar;
    }
  }

  lemma NoTab(c: bv32)
    requires Scalar(c) && c != 9
    ensures TAB !in EncodeOne(c)
  {
    TrailNotTab(c);
    hide Trail, Lead2, Lead3, Lead4;
  }

  lemma TrailNotTab(c: bv32)
    ensures Trail(c, 0) != TAB && Trail(c, 6) != TAB && Trail(c, 12) != TAB
    ensures c <= 0x7FF ==> Lead2(c) != TAB
    ensures c <= 0xFFFF ==> Lead3(c) != TAB
    ensures c <= 0x10FFFF ==> Lead4(c) != TAB
    ensures c <= 0x7F && c as bv8 == TAB ==> c == 9
  {
  }

  /**
   * On encoded tab-free text colidx is the length of the encoding of the first m characters, m being
   * the largest number of characters whose columns do not exceed the requested one.
   */
  lemma {:induction false} LongestCharacters(t: Tables, s: seq<bv32>, column: nat, tabSize: nat) returns (m: nat)
    requires Good(t) && Scalars(s) && 9 !in s
    ensures m <= |s| && TAB !in Encode(s)
    ensures ColIndex(t, Encode(s), column, tabSize) == |Encode(s[..m])|
    ensures Columns(t, s[..m]) <= column
    ensures forall k :: m < k <= |s| ==> column < Columns(t, s[..k])
  {
    NoTabs(s);
    hide EncodeOne, Scalar, Good, Width;
    if s == [] {
      m := 0;
    } else {
      ColIndexEncoded(t, s[0], Encode(s[1..]), column, tabSize);
      hide ColIndex;
      if column < Width(t, s[0]) {
        m := 0;
      } else {
        var rest := LongestCharacters(t, s[1..], column - Width(t, s[0]), tabSize);
        m := rest + 1;
        PrefixFirst(t, s, m);
      }
      forall k | m < k <= |s| ensures column < Columns(t, s[..k]) { PrefixFirst(t, s, k); }
    }
  }

  lemma PrefixFirst(t: Tables, s: seq<bv32>, k: nat)
    requires Good(t) && Scalars(s) && 0 < k <= |s|
    ensures Columns(t, s[..k]) == Width(t, s[0]) + Columns(t, s[1..][..k - 1])
    ensures Encode(s[..k]) == EncodeOne(s[0]) + Encode(s[1..][..k - 1])
  {
    assert s[..k][1..] == s[1..][..k - 1];
    hide EncodeOne, Scalar, Good, Width;
  }

  /** Counting the columns of encoded text. */
  lemma ColumnsEncoded(t: Tables, s: seq<bv32>)
    requires Good(t) && Scalars(s)
    ensures ColumnsOf(t, Encode(s)) == Columns(t, s)
  {
    RoundTrip(s);
    hide Encode, Columns, Good, Decode;
  }
}
