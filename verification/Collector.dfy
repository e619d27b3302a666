/**
 * collector.c: an iterator's strings collected into one block that starts with a NULL-terminated
 * array of pointers into itself. Words are stored with the least significant byte first.
 */
module Collector {
  import opened Seqs
  import opened Powers
  import opened ByteBuffer

  const WORD: nat := 8

  // ---- words in bytes ----

  function Digits(w: nat, n: nat): (bytes: seq<Byte>)
    ensures |bytes| == n
  {
    if n == 0 then [] else [w % 256] + Digits(w / 256, n - 1)
  }

  /** Byte k of a word has weight 256^k. */
  lemma {:induction false} DigitsInOrder(w: nat, n: nat, k: nat)
    requires k < n
    ensures Digits(w, n)[k] == w / Pow2(8 * k) % 256
    decreases k
  {
    if k > 0 {
      DigitsInOrder(w / 256, n - 1, k - 1);
      Pow2Sum(8, 8 * (k - 1));
      assert Pow2(8) == 256;
      DivideTwice(w, 256, Pow2(8 * (k - 1)));
    }
  }

  lemma DivideTwice(w: nat, a: nat, b: nat)
    requires a > 0 && b > 0
    ensures a * b > 0 && w / a / b == w / (a * b)
  {
    var q := w / a;
    Regroup(w, a, b, q, w % a, q / b, q % b);
    Remainder(w, a * b, q / b, a * (q % b) + w % a);
  }

  lemma Regroup(w: nat, a: nat, b: nat, q: nat, r: nat, u: nat, s: nat)
    requires w == a * q + r && q == b * u + s && r < a && s < b
    ensures w == a * b * u + (a * s + r) && a * s + r < a * b
  {
    assert a * (b * u + s) == a * b * u + a * s;
    Gap(a, s, b);
  }

  function Value(bytes: seq<Byte>): nat {
    if bytes == [] then 0 else bytes[0] + 256 * Value(bytes[1..])
  }

  lemma {:induction false} ValueOfDigits(w: nat, n: nat)
    ensures Value(Digits(w, n)) == w % Pow2(8 * n)
  {
    if n > 0 {
      ValueOfDigits(w / 256, n - 1);
      var d := Digits(w, n);
      assert d[1..] == Digits(w / 256, n - 1);
      Pow2Sum(8 * (n - 1), 8);
      assert Pow2(8) == 256;
      LowDigit(w, Pow2(8 * (n - 1)));
    }
  }

  lemma LowDigit(w: nat, p: nat)
    requires p > 0
    ensures w % (p * 256) == w % 256 + 256 * (w / 256 % p)
  {
    var q, r := w / 256 / p, w / 256 % p;
    assert w / 256 == p * q + r;
    assert w == 256 * (w / 256) + w % 256;
    assert w == p * 256 * q + (256 * r + w % 256);
    assert 256 * r + w % 256 < p * 256;
    Remainder(w, p * 256, q, 256 * r + w % 256);
  }

  lemma Remainder(x: nat, d: nat, q: nat, r: nat)
    requires d > 0 && x == d * q + r && r < d
    ensures x / d == q && x % d == r
  {
    var k := x / d;
    assert x == d * k + x % d;
    Gap(d, q, k);
    Gap(d, k, q);
  }

  lemma Gap(d: nat, a: nat, b: nat)
    ensures a < b ==> d * a + d <= d * b
  {
    if a < b {
      var c := b - a - 1;
      assert d * b == d * (a + 1 + c) == d * a + d + d * c;
      assert d * c >= 0;
    }
  }

  /** The word at byte offset 8 * i of a block. */
  function WordAt(block: seq<Byte>, i: nat): nat
    requires WORD * i + WORD <= |block|
  {
    Value(block[WORD * i..WORD * i + WORD])
  }

  lemma WordOfDigits(w: nat)
    requires w < U64
    ensures Value(Digits(w, WORD)) == w
  {
    ValueOfDigits(w, WORD);
    WordPowers();
  }

  // ---- what is built in the two buffers ----

  /** The values one after the other, each closed by a zero byte. */
  function Packed(values: seq<seq<Byte>>): seq<Byte> {
    if values == [] then [] else Packed(values[..|values| - 1]) + values[|values| - 1] + [0]
  }

  /** The offset of value k in the packed bytes. */
  function OffsetOf(values: seq<seq<Byte>>, k: nat): nat
    requires k <= |values|
  {
    |Packed(values[..k])|
  }

  /** One word per value: its offset. */
  function Table(values: seq<seq<Byte>>): (t: seq<Byte>)
    ensures |t| == WORD * |values|
  {
    if values == [] then []
    else
      var front := values[..|values| - 1];
      Table(front) + Digits(|Packed(front)|, WORD)
  }

  lemma TableSnoc(values: seq<seq<Byte>>, v: seq<Byte>)
    ensures Table(values + [v]) == Table(values) + Digits(|Packed(values)|, WORD)
    ensures Packed(values + [v]) == Packed(values) + v + [0]
  {
    assert (values + [v])[..|values|] == values;
  }

  lemma WordInFront(a: seq<Byte>, b: seq<Byte>, i: nat)
    requires WORD * i + WORD <= |a|
    ensures WordAt(a + b, i) == WordAt(a, i)
  {
    assert (a + b)[WORD * i..WORD * i + WORD] == a[WORD * i..WORD * i + WORD];
  }

  lemma WordAtEnd(a: seq<Byte>, w: nat, i: nat)
    requires w < U64 && |a| == WORD * i
    ensures WordAt(a + Digits(w, WORD), i) == w
  {
    WordOfDigits(w);
    assert (a + Digits(w, WORD))[WORD * i..WORD * i + WORD] == Digits(w, WORD);
  }

  lemma {:induction false} TableWords(values: seq<seq<Byte>>, k: nat)
    requires k < |values| && |Packed(values)| < U64
    ensures WordAt(Table(values), k) == OffsetOf(values, k)
  {
    hide Digits, Value, WordAt;
    var n := |values| - 1;
    var front := values[..n];
    if k < n {
      TableWords(front, k);
      assert front[..k] == values[..k];
      WordInFront(Table(front), Digits(|Packed(front)|, WORD), k);
    } else {
      WordAtEnd(Table(front), |Packed(front)|, n);
    }
  }

  // ---- the iterator and its two buffers ----

  /** The caller's iterator: a finite run of values, then its end or a negative error. */
  class Cursor {
    const values: seq<seq<Byte>>
    const outcome: int
    var index: nat

    ghost predicate Valid()
      reads this
    {
      && index <= |values| && outcome <= 0
      && forall k :: 0 <= k < |values| ==> |values[k]| < U64
    }

    constructor (values: seq<seq<Byte>>, outcome: int)
      requires outcome <= 0 && forall k :: 0 <= k < |values| ==> |values[k]| < U64
      ensures Valid() && this.values == values && this.outcome == outcome && index == 0
    {
      this.values, this.outcome, index := values, outcome, 0;
    }

    /** The callback: a status, and a value unless the run is over. */
    method Next() returns (rv: int, value: Option<seq<Byte>>)
      requires Valid()
      modifies this
      ensures Valid()
      ensures old(index) < |values| ==> rv == 0 && value == Some(values[old(index)]) && index == old(index) + 1
      ensures old(index) == |values| ==> rv == outcome && value == None && index == old(index)
    {
      if index < |values| {
        rv, value := 0, Some(values[index]);
        index := index + 1;
      } else {
        rv, value := outcome, None;
      }
    }
  }

  /** -CX_ERR_INTEGER_OVERFLOW */
  const OVERFLOW: int := -1

  function Code(status: Status): int {
    match status case Success => 0 case IntegerOverflow => OVERFLOW
  }

  ghost predicate Apart(list: Buffer, listValues: Buffer)
    reads list, listValues
  {
    list != listValues && list.Repr() !! listValues.Repr()
  }

  /** The buffers hold the table and the bytes of the values so far, and were only appended to. */
  ghost predicate Collected(list: Buffer, listValues: Buffer, values: seq<seq<Byte>>)
    reads list, list.Repr(), listValues, listValues.Repr()
  {
    && list.Valid() && listValues.Valid() && Apart(list, listValues)
    && list.Contents() == Table(values) && listValues.Contents() == Packed(values)
    && Growing(list.Allocation()) && Growing(listValues.Allocation())
  }

  lemma {:induction false} PackedGrows(values: seq<seq<Byte>>, k: nat)
    requires k <= |values|
    ensures OffsetOf(values, k) <= |Packed(values)|
    ensures k < |values| ==> OffsetOf(values, k) + |values[k]| + 1 == OffsetOf(values, k + 1)
    decreases |values|
  {
    var n := |values|;
    if k == n {
      assert values[..n] == values;
    } else {
      assert values[..k + 1][..k] == values[..k];
      PackedGrows(values[..n - 1], k);
      assert values[..n - 1][..k] == values[..k];
    }
  }

  lemma OneMoreValue(values: seq<seq<Byte>>, k: nat)
    requires k < |values|
    ensures Table(values[..k + 1]) == Table(values[..k]) + Digits(|Packed(values[..k])|, WORD)
    ensures Packed(values[..k + 1]) == Packed(values[..k]) + values[k] + [0]
  {
    assert values[..k + 1] == values[..k] + [values[k]];
    TableSnoc(values[..k], values[k]);
  }

  /** The sizes at which adding value k overflows. */
  predicate Overflows(values: seq<seq<Byte>>, k: nat)
    requires k < |values|
  {
    HALF < WORD * (k + 1) || HALF < OffsetOf(values, k + 1)
  }

  /** A value and the zero byte that closes it. */
  method AppendString(listValues: Buffer, value: seq<Byte>) returns (status: Status)
    requires listValues.Valid() && Growing(listValues.Allocation()) && |value| < U64
    modifies listValues, listValues.Repr()
    ensures listValues.Valid() && fresh(listValues.Repr() - old(listValues.Repr()))
    ensures status == if HALF < old(listValues.size) + |value| + 1 then IntegerOverflow else Success
    ensures status.Success? ==>
      Growing(listValues.Allocation()) && listValues.Contents() == old(listValues.Contents()) + value + [0]
  {
    hide Growing, Appended, TooLarge, LeastPow2;
    status := listValues.Append(value);
    if status != Success {
      return;
    }
    status := listValues.Append([0]);
  }

  /** handle_next */
  method HandleNext(cursor: Cursor, list: Buffer, listValues: Buffer) returns (rv: int)
    requires cursor.Valid() && Collected(list, listValues, cursor.values[..cursor.index])
    modifies cursor, list, list.Repr(), listValues, listValues.Repr()
    ensures cursor.Valid() && list.Valid() && listValues.Valid()
    ensures fresh(list.Repr() - old(list.Repr())) && fresh(listValues.Repr() - old(listValues.Repr()))
    ensures old(cursor.index) == |cursor.values| ==> rv == cursor.outcome
    ensures old(cursor.index) < |cursor.values| ==>
      rv == if Overflows(cursor.values, old(cursor.index)) then -1 else 1
    ensures 0 <= rv ==> cursor.index == old(cursor.index) + rv
    ensures 0 <= rv ==> Collected(list, listValues, cursor.values[..cursor.index])
  {
    hide Growing, Appended, TooLarge, Packed, Table, Digits, LeastPow2;
    ghost var values, k := cursor.values, cursor.index;
    var value: Option<seq<Byte>>;
    rv, value := cursor.Next();
    if rv < 0 {
      return;
    } else if value.None? {
      return 0;
    }
    OneMoreValue(values, k);
    PackedGrows(values, k);
    var offset := listValues.size;
    var status := list.Append(Digits(offset, WORD));
    if status != Success {
      return Code(status);
    }
    status := AppendString(listValues, value.value);
    if status != Success {
      return Code(status);
    }
    return 1;
  }

  // ---- relocation ----

  function Stored(block: seq<Byte>, i: nat, w: nat): (after: seq<Byte>)
    requires WORD * i + WORD <= |block|
    ensures |after| == |block|
  {
    block[..WORD * i] + Digits(w, WORD) + block[WORD * i + WORD..]
  }

  lemma StoredWord(block: seq<Byte>, i: nat, w: nat, k: nat)
    requires WORD * i + WORD <= |block| && w < U64 && k <= i
    ensures WordAt(Stored(block, i, w), k) == if k == i then w else WordAt(block, k)
    ensures Stored(block, i, w)[WORD * i + WORD..] == block[WORD * i + WORD..]
  {
    var front := block[..WORD * i];
    WordAtEnd(front, w, i);
    assert front + block[WORD * i..] == block;
    hide Digits, Value, WordAt;
    if k < i {
      WordInFront(front, Digits(w, WORD), k);
      WordInFront(front, block[WORD * i..], k);
    }
    WordInFront(front + Digits(w, WORD), block[WORD * i + WORD..], k);
  }

  method StoreWord(block: array<Byte>, i: nat, w: nat)
    requires WORD * i + WORD <= block.Length
    modifies block
    ensures block[..] == Stored(old(block[..]), i, w)
  {
    var bytes := Digits(w, WORD);
    hide Digits;
    forall j | 0 <= j < WORD {
      block[WORD * i + j] := bytes[j];
    }
  }

  /** The first n words have grown by shift, wrapping around; nothing else has changed. */
  ghost predicate Relocated(before: seq<Byte>, after: seq<Byte>, n: nat, shift: nat) {
    && |after| == |before| && WORD * n <= |before|
    && (forall k :: 0 <= k < n ==> WordAt(after, k) == (WordAt(before, k) + shift) % U64)
    && after[WORD * n..] == before[WORD * n..]
  }

  lemma RelocatedNext(before: seq<Byte>, now: seq<Byte>, i: nat, shift: nat)
    requires Relocated(before, now, i, shift) && WORD * i + WORD <= |before|
    ensures WordAt(now, i) == WordAt(before, i)
    ensures Relocated(before, Stored(now, i, (WordAt(now, i) + shift) % U64), i + 1, shift)
  {
    assert now[WORD * i..][..WORD] == now[WORD * i..WORD * i + WORD];
    assert before[WORD * i..][..WORD] == before[WORD * i..WORD * i + WORD];
    hide Value, Digits;
    assert WordAt(now, i) == WordAt(before, i);
    assert now[WORD * i..][WORD..] == now[WORD * i + WORD..] && before[WORD * i..][WORD..] == before[WORD * i + WORD..];
    hide WordAt, Stored;
    forall k | 0 <= k <= i
      ensures WordAt(Stored(now, i, (WordAt(now, i) + shift) % U64), k) == (WordAt(before, k) + shift) % U64
    {
      StoredWord(now, i, (WordAt(now, i) + shift) % U64, k);
    }
    StoredWord(now, i, (WordAt(now, i) + shift) % U64, i);
  }

  /** The loop that turns offsets into addresses. */
  method Relocate(result: array<Byte>, elements: nat, shift: nat)
    requires WORD * elements <= result.Length
    modifies result
    ensures Relocated(old(result[..]), result[..], elements, shift)
  {
    hide WordAt, Stored, Digits;
    for i := 0 to elements
      invariant Relocated(old(result[..]), result[..], i, shift)
    {
      RelocatedNext(old(result[..]), result[..], i, shift);
      hide Relocated;
      StoreWord(result, i, (WordAt(result[..], i) + shift) % U64);
    }
  }

  // ---- the collected block ----

  /** The bytes of the pointer array with its NULL. */
  function BaseSize(values: seq<seq<Byte>>): nat {
    WORD * (|values| + 1)
  }

  /** The bytes the block needs: the pointer array, and every value with a zero byte. */
  function Needed(values: seq<seq<Byte>>): nat {
    BaseSize(values) + |Packed(values)|
  }

  /** A block at an address: pointers to the packed values, then NULL, then the packed values. */
  ghost predicate Holds(block: seq<Byte>, address: nat, values: seq<seq<Byte>>) {
    && Needed(values) <= |block|
    && (forall k :: 0 <= k < |values| ==>
      WordAt(block, k) == (OffsetOf(values, k) + (BaseSize(values) + address)) % U64)
    && WordAt(block, |values|) == 0
    && block[BaseSize(values)..Needed(values)] == Packed(values)
  }

  lemma ThreeParts(block: seq<Byte>, a: seq<Byte>, b: seq<Byte>, c: seq<Byte>)
    requires |a| + |b| + |c| <= |block| && block[..|a| + |b| + |c|] == a + b + c
    ensures block == a + block[|a|..]
    ensures block[|a|..][..|b|] == b && block[|a|..][|b|..|b| + |c|] == c
  {
    assert block == (a + b + c) + block[|a| + |b| + |c|..];
  }

  lemma SliceOfSuffix(block: seq<Byte>, i: nat, j: nat, k: nat)
    requires i + k <= |block| && j <= k
    ensures block[i..][j..k] == block[i + j..i + k]
  {
  }

  lemma Assembled(before: seq<Byte>, after: seq<Byte>, address: nat, values: seq<seq<Byte>>)
    requires Needed(values) <= |before| && |Packed(values)| < U64
    requires before[..Needed(values)] == Table(values) + Digits(0, WORD) + Packed(values)
    requires Relocated(before, after, |values|, BaseSize(values) + address)
    ensures Holds(after, address, values)
  {
    hide Table, Packed, Value, Digits;
    var n, packed := |values|, |Packed(values)|;
    ThreeParts(before, Table(values), Digits(0, WORD), Packed(values));
    SliceOfSuffix(after, WORD * n, WORD, WORD + packed);
    SliceOfSuffix(after, WORD * n, 0, WORD);
    WordOfDigits(0);
    assert WordAt(after, n) == 0;
    hide WordAt;
    forall k | 0 <= k < n ensures WordAt(before, k) == OffsetOf(values, k) {
      TableWords(values, k);
      WordInFront(Table(values), before[WORD * n..], k);
    }
    hide Relocated;
    assert forall k :: 0 <= k < n ==>
      WordAt(after, k) == (WordAt(before, k) + (BaseSize(values) + address)) % U64;
  }

  lemma OverflowMeansTooBig(values: seq<seq<Byte>>, k: nat)
    requires k < |values| && Overflows(values, k)
    ensures HALF < Needed(values)
  {
    PackedGrows(values, k + 1);
  }

  lemma NoneCollected()
    ensures Table([]) == [] && Packed([]) == [] && Growing(Growth(0, 0, 0))
  {
  }

  /**
   * The last part of cx_collect: the NULL pointer and the values are appended to the list, its
   * block is taken over and relocated to where the allocator put it.
   */
  method Finish(list: Buffer, listValues: Buffer, elements: nat, address: nat, ghost values: seq<seq<Byte>>)
    returns (rv: int, target: Option<array<Byte>>)
    requires Collected(list, listValues, values) && |values| == elements
    modifies list, list.Repr()
    ensures list.Valid() && listValues.Valid() && list.Repr() !! listValues.Repr()
    ensures rv == (if Needed(values) <= HALF then 0 else -1)
    ensures target.Some? <==> rv == 0
    ensures target.Some? ==> Holds(target.value[..], address, values)
  {
    hide Growing, Appended, TooLarge, Packed, Table, Digits, LeastPow2, Holds, Relocated;
    target := None;
    var status := list.Append(Digits(0, WORD));
    if status != Success {
      return Code(status), None;
    }
    var baseSize := list.size;
    var valuesData := if listValues.data == null then [] else listValues.data[..listValues.size];
    status := list.Append(valuesData);
    if status != Success {
      return Code(status), None;
    }
    ghost var need := list.size;
    var result := list.Unwrap();
    ghost var before := result[..];
    assert before[..need] == Table(values) + Digits(0, WORD) + Packed(values);
    Relocate(result, elements, baseSize + address);
    Assembled(before, result[..], address, values);
    return 0, Some(result);
  }

  /** The loop of cx_collect: values are handled until the cursor ends or something fails. */
  method Gather(cursor: Cursor, list: Buffer, listValues: Buffer) returns (rv: int, elements: nat)
    requires cursor.Valid() && cursor.index == 0 && Collected(list, listValues, [])
    modifies cursor, list, list.Repr(), listValues, listValues.Repr()
    ensures fresh(list.Repr() - old(list.Repr())) && fresh(listValues.Repr() - old(listValues.Repr()))
    ensures rv <= 0
    ensures rv == 0 ==> elements == |cursor.values| && Collected(list, listValues, cursor.values) && cursor.outcome == 0
    ensures rv < 0 ==> HALF < Needed(cursor.values) || rv == cursor.outcome
  {
    hide Growing, Packed, Table, Collected, Overflows, Needed;
    ghost var values := cursor.values;
    assert values[..0] == [];
    rv, elements := 1, 0;
    while rv > 0
      invariant cursor.Valid() && rv <= 1
      invariant fresh(list.Repr() - old(list.Repr())) && fresh(listValues.Repr() - old(listValues.Repr()))
      invariant 0 <= rv ==> cursor.index == elements && Collected(list, listValues, values[..elements])
      invariant rv == 0 ==> elements == |values| && cursor.outcome == 0
      invariant rv < 0 ==> HALF < Needed(values) || rv == cursor.outcome
      decreases |values| - elements + rv
    {
      ghost var k := cursor.index;
      rv := HandleNext(cursor, list, listValues);
      if k < |values| && rv < 0 { OverflowMeansTooBig(values, k); }
      if rv > 0 {
        elements := elements + 1;
      }
    }
    assert values[..|values|] == values;
  }

  /** cx_collect; no target stands for a target that is left as it was. */
  method Collect(cursor: Cursor, address: nat) returns (rv: int, target: Option<array<Byte>>)
    requires cursor.Valid() && cursor.index == 0
    modifies cursor
    ensures target.Some? <==> rv == 0
    ensures rv == 0 <==> cursor.outcome == 0 && Needed(cursor.values) <= HALF
    ensures Needed(cursor.values) <= HALF ==> rv == cursor.outcome
    ensures target.Some? ==> Holds(target.value[..], address, cursor.values)
  {
    var list := new Buffer();
    var listValues := new Buffer();
    NoneCollected();
    assert Collected(list, listValues, []);
    hide Growing, Packed, Table, Collected, Overflows, Needed, Holds, LeastPow2;
    var elements;
    target := None;
    rv, elements := Gather(cursor, list, listValues);
    if rv == 0 {
      rv, target := Finish(list, listValues, elements, address, cursor.values);
    }
    list.Cleanup();
    listValues.Cleanup();
  }

  // ---- reading the block back ----

  /** The C string at a position of a block; None if it runs off the end. */
  function CString(block: seq<Byte>, pos: nat): (s: Option<seq<Byte>>)
    decreases |block| - pos
  {
    if pos >= |block| then None
    else if block[pos] == 0 then Some([])
    else match CString(block, pos + 1)
      case None => None
      case Some(rest) => Some([block[pos]] + rest)
  }

  /** Following the pointers of a block at an address until NULL; None if one leaves the block. */
  function ReadAll(block: seq<Byte>, address: nat, i: nat): (r: Option<seq<seq<Byte>>>)
    decreases |block| - i
  {
    if WORD * i + WORD > |block| then None
    else
      var pointer := WordAt(block, i);
      if pointer == 0 then Some([])
      else if pointer < address then None
      else match CString(block, pointer - address)
        case None => None
        case Some(s) =>
          match ReadAll(block, address, i + 1)
          case None => None
          case Some(rest) => Some([s] + rest)
  }

  /** What a C string can hold of a value: the bytes before its first zero. */
  function UpToZero(v: seq<Byte>): (s: seq<Byte>)
    ensures s <= v && 0 !in s
    ensures s == v <==> 0 !in v
  {
    if v == [] || v[0] == 0 then [] else [v[0]] + UpToZero(v[1..])
  }

  function Cut(values: seq<seq<Byte>>): (r: seq<seq<Byte>>)
    ensures |r| == |values|
    ensures r == values <==> forall v :: v in values ==> 0 !in v
  {
    if values == [] then [] else [UpToZero(values[0])] + Cut(values[1..])
  }

  lemma {:induction false} CStringReads(block: seq<Byte>, pos: nat, v: seq<Byte>)
    requires pos + |v| < |block| && block[pos..pos + |v| + 1] == v + [0]
    ensures CString(block, pos) == Some(UpToZero(v))
    decreases |v|
  {
    assert block[pos] == (v + [0])[0];
    if v != [] && v[0] != 0 {
      assert block[pos + 1..pos + |v| + 1] == block[pos..pos + |v| + 1][1..] == v[1..] + [0];
      CStringReads(block, pos + 1, v[1..]);
    }
  }

  lemma {:induction false} PackedAt(values: seq<seq<Byte>>, k: nat)
    requires k < |values|
    ensures OffsetOf(values, k) + |values[k]| + 1 <= |Packed(values)|
    ensures Packed(values)[OffsetOf(values, k)..OffsetOf(values, k) + |values[k]| + 1] == values[k] + [0]
    decreases |values|
  {
    var n := |values| - 1;
    PackedGrows(values, k);
    PackedGrows(values, k + 1);
    if k < n {
      PackedAt(values[..n], k);
      assert values[..n][..k] == values[..k];
    } else {
      assert Packed(values) == Packed(values[..n]) + (values[n] + [0]);
    }
  }

  lemma StringAt(block: seq<Byte>, address: nat, values: seq<seq<Byte>>, k: nat)
    requires Holds(block, address, values) && address + |block| <= U64 && k < |values|
    ensures WordAt(block, k) == address + (BaseSize(values) + OffsetOf(values, k))
    ensures CString(block, BaseSize(values) + OffsetOf(values, k)) == Some(UpToZero(values[k]))
  {
    hide WordAt, Packed, CString, UpToZero;
    PackedAt(values, k);
    var base, offset, v := BaseSize(values), OffsetOf(values, k), values[k];
    hide OffsetOf, BaseSize;
    SliceOfSlice(block, base, Needed(values), offset, offset + |v| + 1);
    CStringReads(block, base + offset, v);
  }

  lemma SliceOfSlice(block: seq<Byte>, i: nat, j: nat, a: nat, b: nat)
    requires i <= j <= |block| && a <= b <= j - i
    ensures block[i..j][a..b] == block[i + a..i + b]
  {
    assert |block[i..j][a..b]| == |block[i + a..i + b]|;
    forall x | 0 <= x < b - a ensures block[i..j][a..b][x] == block[i + a..i + b][x] {
    }
  }

  lemma {:induction false} ReadFrom(block: seq<Byte>, address: nat, values: seq<seq<Byte>>, k: nat)
    requires Holds(block, address, values) && 0 < address && address + |block| <= U64 && k <= |values|
    ensures ReadAll(block, address, k) == Some(Cut(values[k..]))
    decreases |values| - k
  {
    hide WordAt, Packed, CString, UpToZero;
    if k < |values| {
      StringAt(block, address, values, k);
      ReadFrom(block, address, values, k + 1);
      assert values[k..][1..] == values[k + 1..];
    }
  }

  /**
   * The collected block reads back as the values, each up to its first zero byte: the values
   * themselves exactly if none of them holds a zero byte.
   */
  lemma ReadBack(block: seq<Byte>, address: nat, values: seq<seq<Byte>>)
    requires Holds(block, address, values) && 0 < address && address + |block| <= U64
    ensures ReadAll(block, address, 0) == Some(Cut(values))
    ensures ReadAll(block, address, 0) == Some(values) <==> forall v :: v in values ==> 0 !in v
  {
    ReadFrom(block, address, values, 0);
    hide *;
    assert values[0..] == values;
  }

  lemma {:induction false} NeededIsSum(values: seq<seq<Byte>>)
    ensures Needed(values) == 8 * (|values| + 1) +
            Sum(seq(|values|, k requires 0 <= k < |values| => |values[k]| + 1))
  {
    var lengths := seq(|values|, k requires 0 <= k < |values| => |values[k]| + 1);
    if values != [] {
      var n := |values| - 1;
      NeededIsSum(values[..n]);
      assert lengths[..n] == seq(n, k requires 0 <= k < n => |values[..n][k]| + 1);
    }
  }
}
