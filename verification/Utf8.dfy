/**
 * UTF-8: the lead-byte length table of codegen/byte_size.c, decoding, counting and indexing, and
 * the round trip with the encoding of section 3 of RFC 3629.
 */
module Utf8 {
  import opened Seqs

  /** The number of bytes a character announces in its lead byte; 0 for a byte that leads nothing. */
  function LeadLength(b: bv8): (n: nat)
    ensures n <= 4
  {
    if b & 0x80 == 0 then 1
    else if b & 0xE0 == 0xC0 then 2
    else if b & 0xF0 == 0xE0 then 3
    else if b & 0xF8 == 0xF0 then 4
    else 0
  }

  /** By the value of the lead byte: 0 for a trailing byte and from 0xF8 on. */
  lemma LeadLengthIs(b: bv8)
    ensures LeadLength(b) ==
            if b < 0x80 then 1 else if b < 0xC0 then 0 else if b < 0xE0 then 2
            else if b < 0xF0 then 3 else if b < 0xF8 then 4 else 0
  {
  }

  /** The generator of utf8_len_map. */
  method GenerateLengths() returns (table: array<nat>)
    ensures fresh(table) && table.Length == 256
    ensures forall b: bv8 :: table[b as int] == LeadLength(b)
  {
    table := new nat[256];
    for i := 0 to 256
      invariant forall j :: 0 <= j < i ==> table[j] == LeadLength(j as bv8)
    {
      var b := i as bv8;
      if b & 0x80 == 0 {
        table[i] := 1;
      } else if b & 0xE0 == 0xC0 {
        table[i] := 2;
      } else if b & 0xF0 == 0xE0 {
        table[i] := 3;
      } else if b & 0xF8 == 0xF0 {
        table[i] := 4;
      } else {
        table[i] := 0;
      }
      assert table[i] == LeadLength(b);
      hide LeadLength;
    }
    hide LeadLength;
    forall b: bv8 ensures table[b as int] == LeadLength(b) { ByteAgain(b); }
  }

  lemma ByteAgain(b: bv8)
    ensures (b as int) as bv8 == b
  {
  }

  /** cx_utf8_csize on a character at the front of chr; 0 if it leads nothing or does not fit. */
  function Csize(chr: seq<bv8>, length: nat): (n: nat)
    requires |chr| > 0
    ensures n <= length
  {
    var size := LeadLength(chr[0]);
    if size > length then 0 else size
  }

  datatype CodePoint = Value(cp: bv32) | Malformed

  /** The six bits a byte after the lead carries; its top bits are not checked. */
  function Six(b: bv8): bv32 {
    (b & 0x3F) as bv32
  }

  function Join2(a: bv8, b: bv8): bv32 {
    ((a & 0x1F) as bv32 << 6) | Six(b)
  }

  function Join3(a: bv8, b: bv8, c: bv8): bv32 {
    ((a & 0x0F) as bv32 << 12) | (Six(b) << 6) | Six(c)
  }

  function Join4(a: bv8, b: bv8, c: bv8, d: bv8): bv32 {
    ((a & 0x07) as bv32 << 18) | (Six(b) << 12) | (Six(c) << 6) | Six(d)
  }

  /** What the bytes of a character stand for, as numbers to base 64. */
  lemma JoinValues(a: bv8, b: bv8, c: bv8, d: bv8)
    ensures Join2(a, b) == (a & 0x1F) as bv32 * 64 + (b & 0x3F) as bv32
    ensures Join3(a, b, c) == (a & 0x0F) as bv32 * 4096 + (b & 0x3F) as bv32 * 64 + (c & 0x3F) as bv32
    ensures Join4(a, b, c, d) ==
            (a & 0x07) as bv32 * 262144 + (b & 0x3F) as bv32 * 4096 + (c & 0x3F) as bv32 * 64 + (d & 0x3F) as bv32
  {
  }

  /** cx_utf8_cp; the source returns -1 for Malformed. */
  function Cp(chr: seq<bv8>, length: nat): (c: CodePoint)
    requires 0 < |chr| && length <= |chr|
  {
    match Csize(chr, length)
    case 1 => Value(chr[0] as bv32)
    case 2 => Value(Join2(chr[0], chr[1]))
    case 3 => Value(Join3(chr[0], chr[1], chr[2]))
    case 4 => Value(Join4(chr[0], chr[1], chr[2], chr[3]))
    case _ => Malformed
  }

  /** The Unicode scalar values; section 3 of RFC 3629 excludes the surrogates. */
  predicate Scalar(c: bv32) {
    c <= 0x10FFFF && !(0xD800 <= c <= 0xDFFF)
  }

  /** 110xxxxx, 1110xxxx and 11110xxx. */
  function Lead2(c: bv32): bv8
    requires c <= 0x7FF
  {
    0xC0 | ((c >> 6) as bv8)
  }

  function Lead3(c: bv32): bv8
    requires c <= 0xFFFF
  {
    0xE0 | ((c >> 12) as bv8)
  }

  function Lead4(c: bv32): bv8
    requires c <= 0x10FFFF
  {
    0xF0 | ((c >> 18) as bv8)
  }

  /** 10xxxxxx with six bits of c from position k on. */
  function Trail(c: bv32, k: nat): bv8
    requires k <= 12
  {
    0x80 | (((c >> k) & 0x3F) as bv8)
  }

  /** The encoding table of section 3 of RFC 3629. */
  function EncodeOne(c: bv32): (bytes: seq<bv8>)
    requires Scalar(c)
    ensures 1 <= |bytes| <= 4
  {
    if c <= 0x7F then [c as bv8]
    else if c <= 0x7FF then [Lead2(c), Trail(c, 0)]
    else if c <= 0xFFFF then [Lead3(c), Trail(c, 6), Trail(c, 0)]
    else [Lead4(c), Trail(c, 12), Trail(c, 6), Trail(c, 0)]
  }

  /** The examples of section 7 of RFC 3629. */
  lemma RfcExamples()
    ensures EncodeOne(0x41) == [0x41] && EncodeOne(0x391) == [0xCE, 0x91]
    ensures EncodeOne(0x2262) == [0xE2, 0x89, 0xA2] && EncodeOne(0xD55C) == [0xED, 0x95, 0x9C]
    ensures EncodeOne(0x65E5) == [0xE6, 0x97, 0xA5] && EncodeOne(0x233B4) == [0xF0, 0xA3, 0x8E, 0xB4]
  {
  }

  lemma One(c: bv32)
    requires c <= 0x7F
    ensures LeadLength(c as bv8) == 1 && (c as bv8) as bv32 == c
  {
  }

  lemma Two(c: bv32)
    requires 0x7F < c <= 0x7FF
    ensures LeadLength(Lead2(c)) == 2 && Join2(Lead2(c), Trail(c, 0)) == c
  {
  }

  lemma Three(c: bv32)
    requires 0x7FF < c <= 0xFFFF
    ensures LeadLength(Lead3(c)) == 3 && Join3(Lead3(c), Trail(c, 6), Trail(c, 0)) == c
  {
  }

  lemma Four(c: bv32)
    requires 0xFFFF < c <= 0x10FFFF
    ensures LeadLength(Lead4(c)) == 4 && Join4(Lead4(c), Trail(c, 12), Trail(c, 6), Trail(c, 0)) == c
  {
  }

  /** Decoding a character at the front of a longer string. */
  lemma StepEncoded(c: bv32, rest: seq<bv8>)
    requires Scalar(c)
    ensures var str := EncodeOne(c) + rest;
            LeadLength(str[0]) == |EncodeOne(c)| == Csize(str, |str|)
            && Cp(str, |EncodeOne(c)|) == Value(c)
  {
    hide LeadLength, Six, Trail, Join2, Join3, Join4, Lead2, Lead3, Lead4;
    if c <= 0x7F { One(c); }
    else if c <= 0x7FF { Two(c); }
    else if c <= 0xFFFF { Three(c); }
    else { Four(c); }
  }

  predicate Scalars(s: seq<bv32>) {
    forall i :: 0 <= i < |s| ==> Scalar(s[i])
  }

  function Encode(s: seq<bv32>): (str: seq<bv8>)
    requires Scalars(s)
  {
    if s == [] then [] else EncodeOne(s[0]) + Encode(s[1..])
  }

  /** Stepping through a string with csize and cp. */
  function Decode(str: seq<bv8>): (r: Option<seq<bv32>>)
    decreases |str|
  {
    if str == [] then Some([])
    else
      var size := Csize(str, |str|);
      match Cp(str, size)
      case Malformed => None
      case Value(c) =>
        PositiveSize(str, size);
        match Decode(str[size..])
        case None => None
        case Some(s) => Some([c] + s)
  }

  lemma PositiveSize(str: seq<bv8>, size: nat)
    requires 0 < |str| && size <= |str|
    ensures Cp(str, size).Value? <==> 0 < Csize(str, size)
  {
    hide Join2, Join3, Join4;
  }

  /** The round trip of section 3 of RFC 3629. */
  lemma {:induction false} RoundTrip(s: seq<bv32>)
    requires Scalars(s)
    ensures Decode(Encode(s)) == Some(s)
  {
    if s != [] {
      var rest := Encode(s[1..]);
      StepEncoded(s[0], rest);
      RoundTrip(s[1..]);
      hide Cp, Csize, EncodeOne, Scalar;
      assert Encode(s)[|EncodeOne(s[0])|..] == rest;
      assert [s[0]] + s[1..] == s;
    }
  }

  predicate Tail(b: bv8) {
    0x80 <= b <= 0xBF
  }

  /** UTF8-2, UTF8-3 and UTF8-4 of section 4 of RFC 3629. */
  predicate Grammar2(a: bv8, b: bv8) {
    0xC2 <= a <= 0xDF && Tail(b)
  }

  predicate Grammar3(a: bv8, b: bv8, c: bv8) {
    || (a == 0xE0 && 0xA0 <= b <= 0xBF && Tail(c))
    || (0xE1 <= a <= 0xEC && Tail(b) && Tail(c))
    || (a == 0xED && 0x80 <= b <= 0x9F && Tail(c))
    || (0xEE <= a <= 0xEF && Tail(b) && Tail(c))
  }

  predicate Grammar4(a: bv8, b: bv8, c: bv8, d: bv8) {
    || (a == 0xF0 && 0x90 <= b <= 0xBF && Tail(c) && Tail(d))
    || (0xF1 <= a <= 0xF3 && Tail(b) && Tail(c) && Tail(d))
    || (a == 0xF4 && 0x80 <= b <= 0x8F && Tail(c) && Tail(d))
  }

  /** UTF8-char of section 4 of RFC 3629. */
  predicate GrammarChar(chr: seq<bv8>) {
    match |chr|
    case 1 => chr[0] <= 0x7F
    case 2 => Grammar2(chr[0], chr[1])
    case 3 => Grammar3(chr[0], chr[1], chr[2])
    case 4 => Grammar4(chr[0], chr[1], chr[2], chr[3])
    case _ => false
  }

  /** UTF8-octets: a string of characters of the grammar. */
  predicate Grammar(str: seq<bv8>)
    decreases |str|
  {
    str == []
    || exists n :: 1 <= n <= 4 && n <= |str| && GrammarChar(str[..n]) && Grammar(str[n..])
  }

  lemma Grammar2Iff(a: bv8, b: bv8)
    requires LeadLength(a) == 2
    ensures var c := Join2(a, b);
            Grammar2(a, b) <==> 0x7F < c <= 0x7FF && a == Lead2(c) && b == Trail(c, 0)
  {
  }

  /** The six bits of b under the mark of a trailing byte. */
  function Marked(b: bv8): bv8 {
    0x80 | (b & 0x3F)
  }

  lemma MarkedTail(b: bv8)
    ensures b == Marked(b) <==> Tail(b)
  {
  }

  lemma Fields3(a: bv8, b: bv8, c: bv8)
    ensures var cp := Join3(a, b, c);
            Trail(cp, 0) == Marked(c) && Trail(cp, 6) == Marked(b) && cp <= 0xFFFF
            && cp >> 6 == ((a & 0x0F) as bv32 << 6) | Six(b)
            && (0x7FF < cp <==> 0x1F < cp >> 6) && (Scalar(cp) <==> !(0x360 <= cp >> 6 <= 0x37F))
  {
  }

  lemma Lead3Is(a: bv8, b: bv8, c: bv8)
    requires LeadLength(a) == 3
    ensures Join3(a, b, c) <= 0xFFFF && a == Lead3(Join3(a, b, c))
  {
  }

  lemma Top3(a: bv8, b: bv8)
    requires LeadLength(a) == 3 && Tail(b)
    ensures var top := ((a & 0x0F) as bv32 << 6) | Six(b);
            0x1F < top && !(0x360 <= top <= 0x37F) <==>
            (a == 0xE0 && 0xA0 <= b) || 0xE1 <= a <= 0xEC || (a == 0xED && b <= 0x9F) || 0xEE <= a
  {
  }

  lemma Grammar3Iff(a: bv8, b: bv8, c: bv8)
    requires LeadLength(a) == 3
    ensures var cp := Join3(a, b, c);
            Grammar3(a, b, c) <==>
            0x7FF < cp <= 0xFFFF && Scalar(cp) && a == Lead3(cp) && b == Trail(cp, 6) && c == Trail(cp, 0)
  {
    Fields3(a, b, c);
    Lead3Is(a, b, c);
    MarkedTail(b);
    MarkedTail(c);
    if Tail(b) { Top3(a, b); }
    assert 0xE0 <= a <= 0xEF;
    hide Join3, Lead3, Trail, Marked, Six, Scalar, LeadLength;
  }

  lemma Fields4(a: bv8, b: bv8, c: bv8, d: bv8)
    ensures var cp := Join4(a, b, c, d);
            Trail(cp, 0) == Marked(d) && Trail(cp, 6) == Marked(c) && Trail(cp, 12) == Marked(b)
            && cp >> 12 == ((a & 0x07) as bv32 << 6) | Six(b)
            && (0xFFFF < cp <==> 0xF < cp >> 12) && (cp <= 0x10FFFF <==> cp >> 12 <= 0x10F)
  {
  }

  lemma Lead4Is(a: bv8, b: bv8, c: bv8, d: bv8)
    requires LeadLength(a) == 4 && Join4(a, b, c, d) <= 0x10FFFF
    ensures a == Lead4(Join4(a, b, c, d))
  {
  }

  lemma Top4(a: bv8, b: bv8)
    requires LeadLength(a) == 4 && Tail(b)
    ensures var top := ((a & 0x07) as bv32 << 6) | Six(b);
            0xF < top <= 0x10F <==> (a == 0xF0 && 0x90 <= b) || 0xF1 <= a <= 0xF3 || (a == 0xF4 && b <= 0x8F)
  {
  }

  lemma Grammar4Iff(a: bv8, b: bv8, c: bv8, d: bv8)
    requires LeadLength(a) == 4
    ensures var cp := Join4(a, b, c, d);
            Grammar4(a, b, c, d) <==>
            0xFFFF < cp <= 0x10FFFF && a == Lead4(cp) && b == Trail(cp, 12) && c == Trail(cp, 6) && d == Trail(cp, 0)
  {
    Fields4(a, b, c, d);
    if Join4(a, b, c, d) <= 0x10FFFF { Lead4Is(a, b, c, d); }
    MarkedTail(b);
    MarkedTail(c);
    MarkedTail(d);
    if Tail(b) { Top4(a, b); }
    hide Join4, Lead4, Trail, Marked, Six, LeadLength;
  }

  lemma GrammarLead(chr: seq<bv8>)
    requires GrammarChar(chr)
    ensures LeadLength(chr[0]) == |chr|
  {
  }

  lemma Grammar1Iff(a: bv8)
    requires LeadLength(a) == 1
    ensures a <= 0x7F && Scalar(a as bv32) && a as bv32 <= 0x7F && (a as bv32) as bv8 == a
  {
  }

  /** The length of an encoding and its bytes, by the range of the value. */
  lemma EncodedBytes(c: bv32)
    ensures c <= 0x7FF ==> c <= 0xFFFF && c <= 0x10FFFF && Scalar(c)
    ensures c <= 0xFFFF ==> c <= 0x10FFFF
    ensures 0xFFFF < c <= 0x10FFFF ==> Scalar(c)
    ensures Scalar(c) ==> c <= 0x10FFFF
    ensures Scalar(c) && |EncodeOne(c)| == 2 <==> 0x7F < c <= 0x7FF
    ensures Scalar(c) && |EncodeOne(c)| == 3 <==> 0x7FF < c <= 0xFFFF && Scalar(c)
    ensures Scalar(c) && |EncodeOne(c)| == 4 <==> 0xFFFF < c <= 0x10FFFF
    ensures 0x7F < c <= 0x7FF ==> EncodeOne(c) == [Lead2(c), Trail(c, 0)]
    ensures 0x7FF < c <= 0xFFFF && Scalar(c) ==> EncodeOne(c) == [Lead3(c), Trail(c, 6), Trail(c, 0)]
    ensures 0xFFFF < c <= 0x10FFFF ==> EncodeOne(c) == [Lead4(c), Trail(c, 12), Trail(c, 6), Trail(c, 0)]
  {
    hide Lead2, Lead3, Lead4, Trail;
  }

  /** On a whole character the decoder inverts the encoding exactly if the character is in the grammar. */
  lemma CharIff(chr: seq<bv8>)
    requires |chr| > 0 && LeadLength(chr[0]) == |chr|
    ensures Cp(chr, |chr|).Value?
    ensures GrammarChar(chr) <==> var c := Cp(chr, |chr|).cp; Scalar(c) && EncodeOne(c) == chr
  {
    var c := Cp(chr, |chr|).cp;
    hide LeadLength, Join2, Join3, Join4, Lead2, Lead3, Lead4, Trail, Scalar, Grammar2, Grammar3, Grammar4;
    if |chr| == 1 {
      Grammar1Iff(chr[0]);
    } else {
      CharIffLonger(chr, c);
    }
  }

  lemma CharIffLonger(chr: seq<bv8>, c: bv32)
    requires |chr| > 1 && LeadLength(chr[0]) == |chr| && Cp(chr, |chr|) == Value(c)
    ensures GrammarChar(chr) <==> Scalar(c) && EncodeOne(c) == chr
  {
    EncodedBytes(c);
    hide LeadLength, Join2, Join3, Join4, Lead2, Lead3, Lead4, Trail, Scalar, Grammar2, Grammar3, Grammar4, EncodeOne;
    if |chr| == 2 {
      Grammar2Iff(chr[0], chr[1]);
    } else if |chr| == 3 {
      Grammar3Iff(chr[0], chr[1], chr[2]);
    } else {
      Grammar4Iff(chr[0], chr[1], chr[2], chr[3]);
    }
  }

  lemma GrammarEncoded(c: bv32)
    requires Scalar(c)
    ensures GrammarChar(EncodeOne(c))
  {
    StepEncoded(c, []);
    assert EncodeOne(c) + [] == EncodeOne(c);
    CharIff(EncodeOne(c));
  }

  lemma {:induction false} EncodeGrammar(s: seq<bv32>)
    requires Scalars(s)
    ensures Grammar(Encode(s))
  {
    if s != [] {
      EncodeGrammar(s[1..]);
      GrammarEncoded(s[0]);
      hide EncodeOne, GrammarChar, Scalar;
      var n := |EncodeOne(s[0])|;
      assert Encode(s)[..n] == EncodeOne(s[0]) && Encode(s)[n..] == Encode(s[1..]);
    }
  }

  lemma EncodeFirst(c: bv32, s: seq<bv32>)
    requires Scalar(c) && Scalars(s)
    ensures Scalars([c] + s) && Encode([c] + s) == EncodeOne(c) + Encode(s)
  {
    hide EncodeOne, Scalar;
    assert ([c] + s)[1..] == s;
  }

  /** Decoding looks at no byte past the character. */
  lemma FirstChar(str: seq<bv8>, n: nat)
    requires 1 <= n <= |str| && LeadLength(str[0]) == n
    ensures Csize(str, |str|) == n && Cp(str, n) == Cp(str[..n], n)
  {
    hide LeadLength, Join2, Join3, Join4;
  }

  lemma DecodeFirst(str: seq<bv8>, n: nat)
    requires 1 <= n <= |str| && Csize(str, |str|) == n && Cp(str, n).Value? && Decode(str[n..]).Some?
    ensures Decode(str) == Some([Cp(str, n).cp] + Decode(str[n..]).value)
  {
    hide Cp, Csize;
  }

  lemma {:induction false} GrammarDecodes(str: seq<bv8>)
    requires Grammar(str)
    ensures Decode(str).Some? && Scalars(Decode(str).value) && Encode(Decode(str).value) == str
    decreases |str|
  {
    hide LeadLength, Cp, Csize, EncodeOne, Scalar, Scalars, GrammarChar;
    if str == [] {
      EmptyDecodes();
    } else {
      var n :| 1 <= n <= 4 && n <= |str| && GrammarChar(str[..n]) && Grammar(str[n..]);
      hide Decode, Encode, Grammar;
      GrammarLead(str[..n]);
      CharIff(str[..n]);
      FirstChar(str, n);
      GrammarDecodes(str[n..]);
      DecodeFirst(str, n);
      EncodeFirst(Cp(str, n).cp, Decode(str[n..]).value);
      assert str == str[..n] + str[n..];
    }
  }

  lemma EmptyDecodes()
    ensures Decode([]) == Some([]) && Scalars([]) && Encode([]) == []
  {
  }

  /** Exactly the strings of the grammar decode to scalar values whose encoding they are. */
  lemma DecodeIsInverseOnGrammar(str: seq<bv8>)
    ensures Grammar(str) <==>
      Decode(str).Some? && Scalars(Decode(str).value) && Encode(Decode(str).value) == str
  {
    hide *;
    if Grammar(str) { GrammarDecodes(str); }
    if Decode(str).Some? && Scalars(Decode(str).value) && Encode(Decode(str).value) == str {
      EncodeGrammar(Decode(str).value);
    }
  }

  /** Outside the grammar the decoder is lenient: an overlong form and a missing trailing mark both decode. */
  lemma LenientDecoder()
    ensures Decode([0xC0, 0x80]) == Some([0]) && !Grammar([0xC0, 0x80])
    ensures Decode([0xC3, 0x29]) == Some([0xE9]) && !Grammar([0xC3, 0x29])
  {
    EmptyDecodes();
    LenientPair(0xC0, 0x80);
    LenientPair(0xC3, 0x29);
  }

  lemma LenientPair(a: bv8, b: bv8)
    requires LeadLength(a) == 2
    ensures Decode([a, b]) == Some([Join2(a, b)])
    ensures Grammar([a, b]) <==> Grammar2(a, b)
  {
    hide Join2;
    var str := [a, b];
    assert str[2..] == [];
    assert [Join2(a, b)] + [] == [Join2(a, b)];
    DecodeFirst(str, 2);
    hide Grammar2;
    assert str[..2] == str;
    if Grammar(str) {
      var n :| 1 <= n <= 4 && n <= |str| && GrammarChar(str[..n]) && Grammar(str[n..]);
      GrammarLead(str[..n]);
    }
  }

  /**
   * The offset after k characters by their lead bytes alone, stopping at or past the end; None once
   * a byte that leads nothing is met.
   */
  function Walk(str: seq<bv8>, k: nat): (r: Option<nat>) {
    if k == 0 then Some(0)
    else match Walk(str, k - 1)
      case None => None
      case Some(p) =>
        if p >= |str| then Some(p)
        else if LeadLength(str[p]) == 0 then None
        else Some(p + LeadLength(str[p]))
  }

  lemma {:induction false} WalkAdvances(str: seq<bv8>, j: nat, k: nat)
    requires j <= k
    ensures Walk(str, j).None? ==> Walk(str, k).None?
    ensures Walk(str, j).Some? && Walk(str, j).value >= |str| ==> Walk(str, k) == Walk(str, j)
    decreases k
  {
    if j < k { WalkAdvances(str, j, k - 1); }
  }

  /** The walk reaches the end after exactly count characters, or count is -1 and it meets a bad byte. */
  ghost predicate Counts(str: seq<bv8>, count: int) {
    && -1 <= count
    && (0 <= count ==> Walk(str, count).Some? && |str| <= Walk(str, count).value)
    && (forall j: nat :: j < count ==> Walk(str, j).Some? && Walk(str, j).value < |str|)
    && (count == -1 <==> exists k: nat :: Walk(str, k).None?)
  }

  /** cx_utf8_clen */
  method Clen(str: seq<bv8>) returns (count: int)
    ensures Counts(str, count)
  {
    count := 0;
    var i := 0;
    while i < |str|
      invariant 0 <= count && Walk(str, count) == Some(i)
      invariant forall j: nat :: j < count ==> Walk(str, j).Some? && Walk(str, j).value < |str|
      decreases |str| - i
    {
      var charLen := LeadLength(str[i]);
      if charLen == 0 {
        assert Walk(str, count + 1).None?;
        return -1;
      }
      i := i + charLen;
      count := count + 1;
    }
    forall k: nat ensures Walk(str, k).Some? {
      if k >= count { WalkAdvances(str, count, k); }
    }
  }

  /** The offset of a character; -1 past a bad lead byte or when the last character is cut off. */
  function IndexOf(str: seq<bv8>, charIndex: nat): (index: int) {
    match Walk(str, charIndex)
    case None => -1
    case Some(p) => if p > |str| then -1 else p
  }

  /** cx_utf8_bidx */
  method Bidx(str: seq<bv8>, charIndex: nat) returns (index: int)
    ensures index == IndexOf(str, charIndex)
  {
    var byteIndex, i := 0, 0;
    while byteIndex < |str| && i < charIndex
      invariant i <= charIndex && Walk(str, i) == Some(byteIndex)
      decreases charIndex - i
    {
      var charLen := LeadLength(str[byteIndex]);
      if charLen == 0 {
        WalkAdvances(str, i + 1, charIndex);
        return -1;
      }
      byteIndex := byteIndex + charLen;
      i := i + 1;
    }
    WalkAdvances(str, i, charIndex);
    if byteIndex > |str| {
      return -1;
    }
    return byteIndex;
  }

  /** Whether the count-th character announces no more bytes than the text has left. */
  ghost predicate LastFits(str: seq<bv8>, count: nat)
    requires Counts(str, count)
  {
    count == 0 || var start := Walk(str, count - 1).value; start + LeadLength(str[start]) == |str|
  }

  /**
   * The two agree on where the text ends: when clen counts n characters, bidx at n is the length of
   * the text if and only if the lead byte of the last character announces just what is left. A last
   * character that is cut off is counted by clen and rejected by bidx.
   */
  lemma CountedEnd(str: seq<bv8>, count: nat, k: nat)
    requires Counts(str, count)
    ensures count <= k ==> IndexOf(str, k) == if LastFits(str, count) then |str| else -1
    ensures k < count ==> 0 <= IndexOf(str, k) < |str|
  {
    if count <= k { WalkAdvances(str, count, k); }
    if count > 0 { assert Walk(str, count - 1).Some? && Walk(str, count - 1).value < |str|; }
  }

  /** Behind the first character the walk goes on as in the rest of the text. */
  lemma {:induction false} WalkShift(str: seq<bv8>, k: nat)
    requires str != [] && 0 < LeadLength(str[0]) <= |str|
    ensures var n := LeadLength(str[0]); var rest := Walk(str[n..], k);
            Walk(str, k + 1) == if rest.None? then None else Some(n + rest.value)
  {
    hide LeadLength;
    assert Walk(str, 0) == Some(0);
    if k > 0 { WalkShift(str, k - 1); }
  }

  /** A text whose first character is bad or cut off: the walk never ends at its end. */
  lemma NoWalk(str: seq<bv8>, k: nat)
    requires str != [] && (LeadLength(str[0]) == 0 || |str| < LeadLength(str[0]))
    ensures Decode(str).None? && Walk(str, k) != Some(|str|)
  {
    assert Walk(str, 0) == Some(0);
    assert Walk(str, 1) == if LeadLength(str[0]) == 0 then None else Some(LeadLength(str[0]));
    if k > 0 { WalkAdvances(str, 1, k); }
  }

  lemma DecodeRest(str: seq<bv8>)
    requires str != [] && 0 < LeadLength(str[0]) <= |str|
    ensures var rest := Decode(str[LeadLength(str[0])..]);
            && (Decode(str).Some? <==> rest.Some?)
            && (rest.Some? ==> |Decode(str).value| == |rest.value| + 1)
  {
    hide LeadLength, Join2, Join3, Join4;
  }

  /** Behind a first character that is neither, the walk ends at the end if it does so in the rest. */
  lemma RestWalk(str: seq<bv8>, k: nat)
    requires str != [] && 0 < LeadLength(str[0]) <= |str|
    ensures Walk(str, 0) != Some(|str|)
    ensures Walk(str, k + 1) == Some(|str|) <==>
            Walk(str[LeadLength(str[0])..], k) == Some(|str[LeadLength(str[0])..]|)
  {
    WalkShift(str, k);
    assert Walk(str, 0) == Some(0);
    hide Walk, LeadLength;
  }

  /** Text decodes exactly if counting character by character ends at its end, and to that many values. */
  lemma {:induction false} DecodesIff(str: seq<bv8>)
    ensures Decode(str).Some? ==> Walk(str, |Decode(str).value|) == Some(|str|)
    ensures Decode(str).Some? <==> exists k :: Walk(str, k) == Some(|str|)
    decreases |str|
  {
    if str == [] {
      assert Walk(str, 0) == Some(|str|);
      return;
    }
    hide Decode, Walk, LeadLength;
    var n := LeadLength(str[0]);
    if n == 0 || |str| < n {
      NoWalk(str, 0);
      forall k: nat
        ensures Walk(str, k) != Some(|str|)
      {
        NoWalk(str, k);
      }
      return;
    }
    DecodesIff(str[n..]);
    DecodeRest(str);
    if Decode(str[n..]).Some? {
      RestWalk(str, |Decode(str[n..]).value|);
    }
    forall k: nat | Walk(str, k) == Some(|str|)
      ensures Decode(str[n..]).Some?
    {
      RestWalk(str, if k > 0 then k - 1 else 0);
    }
  }

  /** A lead byte of two with nothing after it: one character for clen, no index 1 for bidx. */
  lemma CutOffEnd()
    ensures Counts([0xC3], 1) && IndexOf([0xC3], 1) == -1
  {
    var str: seq<bv8> := [0xC3];
    assert LeadLength(0xC3) == 2;
    assert Walk(str, 0) == Some(0) && Walk(str, 1) == Some(2);
    forall k: nat
      ensures Walk(str, k).Some?
    {
      if k > 1 { WalkAdvances(str, 1, k); }
    }
  }

  function Min(a: nat, b: nat): nat {
    if a < b then a else b
  }

  lemma {:induction false} EncodeConcat(s: seq<bv32>, t: seq<bv32>)
    requires Scalars(s) && Scalars(t)
    ensures Scalars(s + t) && Encode(s + t) == Encode(s) + Encode(t)
  {
    hide Scalar, EncodeOne;
    if s == [] {
      assert s + t == t;
    } else {
      EncodeConcat(s[1..], t);
      assert (s + t)[1..] == s[1..] + t;
    }
  }

  lemma EncodeParts(a: seq<bv32>, c: bv32, b: seq<bv32>)
    requires Scalars(a) && Scalar(c) && Scalars(b)
    ensures Scalars(a + ([c] + b)) && Encode(a + ([c] + b)) == Encode(a) + (EncodeOne(c) + Encode(b))
  {
    EncodeFirst(c, b);
    EncodeConcat(a, [c] + b);
  }

  lemma ScalarParts(s: seq<bv32>, k: nat)
    requires Scalars(s) && k < |s|
    ensures Scalar(s[k]) && Scalars(s[..k]) && Scalars(s[..k + 1]) && Scalars(s[k + 1..])
    ensures s == s[..k] + ([s[k]] + s[k + 1..]) && s[..k + 1] == s[..k] + [s[k]]
  {
    hide Scalar;
  }

  lemma EncodeSnoc(a: seq<bv32>, c: bv32)
    requires Scalars(a) && Scalar(c)
    ensures Scalars(a + [c]) && Encode(a + [c]) == Encode(a) + EncodeOne(c)
  {
    EncodeParts(a, c, []);
    assert [c] + [] == [c];
    assert EncodeOne(c) + [] == EncodeOne(c);
  }

  lemma EncodeSplit(s: seq<bv32>, k: nat)
    requires Scalars(s) && k < |s|
    ensures Scalars(s[..k]) && Scalars(s[..k + 1]) && Scalars(s[k + 1..])
    ensures Encode(s) == Encode(s[..k]) + (EncodeOne(s[k]) + Encode(s[k + 1..]))
    ensures Encode(s[..k + 1]) == Encode(s[..k]) + EncodeOne(s[k])
  {
    hide *;
    ScalarParts(s, k);
    EncodeParts(s[..k], s[k], s[k + 1..]);
    EncodeSnoc(s[..k], s[k]);
  }

  /** On encoded text the walk visits exactly the character boundaries. */
  lemma {:induction false} WalkEncoded(s: seq<bv32>, k: nat)
    requires Scalars(s)
    ensures Walk(Encode(s), k) == Some(|Encode(s[..Min(k, |s|)])|)
  {
    hide Scalar, EncodeOne, LeadLength, Encode, Cp, Csize;
    if k == 0 {
      EmptyDecodes();
    } else {
      WalkEncoded(s, k - 1);
      if k <= |s| {
        EncodeSplit(s, k - 1);
        StepEncoded(s[k - 1], Encode(s[k..]));
        var p := |Encode(s[..k - 1])|;
        assert Encode(s)[p] == (EncodeOne(s[k - 1]) + Encode(s[k..]))[0];
      } else {
        assert s[..|s|] == s;
      }
    }
  }

  lemma EncodedLength(s: seq<bv32>, k: nat)
    requires Scalars(s) && k < |s|
    ensures |Encode(s[..k])| < |Encode(s)|
  {
    EncodeSplit(s, k);
  }

  /** clen counts the scalar values of encoded text. */
  lemma CountEncoded(s: seq<bv32>, count: int)
    requires Scalars(s) && Counts(Encode(s), count)
    ensures count == |s|
  {
    forall k: nat ensures Walk(Encode(s), k) == Some(|Encode(s[..Min(k, |s|)])|) { WalkEncoded(s, k); }
    hide Encode, Walk, Scalars;
    assert s[..|s|] == s;
    assert Walk(Encode(s), |s|) == Some(|Encode(s)|);
    if 0 <= count < |s| { EncodedLength(s, count); }
  }

  /** bidx at k is the length of the encoding of the first k values, or of all of them. */
  lemma IndexEncoded(s: seq<bv32>, k: nat)
    requires Scalars(s)
    ensures IndexOf(Encode(s), k) == |Encode(s[..Min(k, |s|)])|
  {
    WalkEncoded(s, k);
    hide Encode, Walk, Scalars;
    assert s[..|s|] == s;
    if k < |s| { EncodedLength(s, k); }
  }

  /** The walk through encoded text, whatever comes behind it. */
  lemma {:induction false} WalkThrough(s: seq<bv32>, more: seq<bv8>, k: nat)
    requires Scalars(s) && k <= |s|
    ensures Walk(Encode(s) + more, k) == Some(|Encode(s[..k])|)
  {
    hide Scalar, EncodeOne, LeadLength, Encode, Cp, Csize;
    if k == 0 {
      EmptyDecodes();
      assert s[..0] == [];
    } else {
      WalkThrough(s, more, k - 1);
      EncodeSplit(s, k - 1);
      StepEncoded(s[k - 1], Encode(s[k..]) + more);
      var front, one, back := Encode(s[..k - 1]), EncodeOne(s[k - 1]), Encode(s[k..]) + more;
      assert Encode(s) + more == front + (one + back);
      assert (Encode(s) + more)[|front|] == (one + back)[0];
    }
  }

  /** Behind encoded text a byte that leads nothing stops decoding, counting and indexing. */
  lemma BadByte(s: seq<bv32>, b: bv8, rest: seq<bv8>)
    requires Scalars(s) && (0x80 <= b < 0xC0 || 0xF8 <= b)
    ensures var str := Encode(s) + ([b] + rest);
            && Decode(str).None? && Counts(str, -1)
            && (forall k :: 0 <= k <= |s| ==> IndexOf(str, k) == |Encode(s[..k])|)
            && (forall k :: |s| < k ==> IndexOf(str, k) == -1)
  {
    var str := Encode(s) + ([b] + rest);
    LeadLengthIs(b);
    assert s[..|s|] == s && str[|Encode(s)|] == b;
    forall k: nat | k <= |s|
      ensures Walk(str, k) == Some(|Encode(s[..k])|) && |Encode(s[..k])| <= |Encode(s)| < |str|
    {
      WalkThrough(s, [b] + rest, k);
      if k < |s| { EncodedLength(s, k); }
    }
    assert Walk(str, |s| + 1).None?;
    forall k: nat | |s| < k
      ensures Walk(str, k).None?
    {
      WalkAdvances(str, |s| + 1, k);
    }
    DecodesIff(str);
    hide Walk, Encode, Decode, Scalars;
  }
}
