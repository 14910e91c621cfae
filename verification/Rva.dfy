/**
 Relative virtual addresses as text: sixteen or more hexadecimal digits, printed by the extractor
 and read back by the dataset writer (backend/assemblage/dwarf/extract.py,
 backend/assemblage/dataset/construct.py).
 */
module Rva {
  import opened Wrappers
  import Seqs

  // --- digits -------------------------------------------------------------------------------

  predicate IsHex(c: char) { '0' <= c <= '9' || 'a' <= c <= 'f' || 'A' <= c <= 'F' }

  predicate IsLowerHex(c: char) { '0' <= c <= '9' || 'a' <= c <= 'f' }

  function Digit(c: char): (d: nat)
    requires IsHex(c)
    ensures d < 16
  {
    if c <= '9' then c as int - '0' as int
    else if c <= 'F' then c as int - 'A' as int + 10
    else c as int - 'a' as int + 10
  }

  function HexChar(d: nat): (c: char)
    requires d < 16
    ensures IsLowerHex(c) && Digit(c) == d
  {
    if d < 10 then ('0' as int + d) as char else ('a' as int + d - 10) as char
  }

  predicate AllHex(s: string) { forall i :: 0 <= i < |s| ==> IsHex(s[i]) }

  predicate AllLowerHex(s: string) { forall i :: 0 <= i < |s| ==> IsLowerHex(s[i]) }

  /** The number a run of digits denotes. */
  function Value(s: string): nat
    requires AllHex(s)
  {
    if s == "" then 0 else 16 * Value(s[..|s| - 1]) + Digit(s[|s| - 1])
  }

  // --- printing and reading -----------------------------------------------------------------

  /** format(n, "x") */
  function Hex(n: nat): (s: string)
    ensures s != "" && AllLowerHex(s)
  {
    if n < 16 then [HexChar(n)] else Hex(n / 16) + [HexChar(n % 16)]
  }

  const WIDTH := 16

  /** s.rjust(16, "0") */
  function Pad(s: string): (r: string)
    ensures |r| == if |s| < WIDTH then WIDTH else |s|
  {
    if |s| < WIDTH then seq(WIDTH - |s|, _ => '0') + s else s
  }

  function FormatRva(n: nat): string { Pad(Hex(n)) }

  /** int(s, 16) on unsigned digits; None stands for ValueError. */
  function ParseHex(s: string): Option<nat> {
    if s != "" && AllHex(s) then Some(Value(s)) else None
  }

  lemma {:induction false} HexValue(n: nat)
    ensures AllHex(Hex(n)) && Value(Hex(n)) == n
  {
    if n < 16 {
      assert [HexChar(n)][..0] == "";
    } else {
      HexValue(n / 16);
      var s := Hex(n);
      assert s[..|s| - 1] == Hex(n / 16);
    }
  }

  lemma {:induction false} ZerosValue(k: nat, s: string)
    requires AllHex(s)
    ensures AllHex(seq(k, _ => '0') + s) && Value(seq(k, _ => '0') + s) == Value(s)
  {
    var z := seq(k, _ => '0');
    if s == "" {
      assert z + s == z;
      if k > 0 {
        ZerosValue(k - 1, "");
        assert z[..k - 1] == seq(k - 1, _ => '0') + "";
      }
    } else {
      ZerosValue(k, s[..|s| - 1]);
      assert (z + s)[..|z + s| - 1] == z + s[..|s| - 1];
    }
  }

  /** Every printed address reads back as itself. */
  lemma RoundTrip(n: nat)
    ensures ParseHex(FormatRva(n)) == Some(n)
    ensures AllLowerHex(FormatRva(n))
  {
    HexValue(n);
    if |Hex(n)| < WIDTH { ZerosValue(WIDTH - |Hex(n)|, Hex(n)); }
  }

  lemma FormatInjective(m: nat, n: nat)
    requires FormatRva(m) == FormatRva(n)
    ensures m == n
  {
    RoundTrip(m);
    RoundTrip(n);
  }

  // --- width --------------------------------------------------------------------------------

  function Pow16(k: nat): nat { if k == 0 then 1 else 16 * Pow16(k - 1) }

  const TWO_TO_64: nat := 0x1_0000_0000_0000_0000

  lemma {:induction false} HexWidth(n: nat, k: nat)
    requires k >= 1
    ensures |Hex(n)| <= k <==> n < Pow16(k)
  {
    if k == 1 {
      assert Pow16(1) == 16 * Pow16(0) == 16;
    } else if n >= 16 {
      HexWidth(n / 16, k - 1);
    } else {
      HexWidth(n, k - 1);
    }
  }

  lemma Pow16Of16()
    ensures Pow16(WIDTH) == TWO_TO_64
  {
    assert Pow16(4) == 0x1_0000;
    assert Pow16(8) == 0x1_0000_0000;
    assert Pow16(12) == 0x1_0000_0000_0000;
  }

  lemma WidthExactly(n: nat)
    ensures |FormatRva(n)| == WIDTH <==> n < TWO_TO_64
  {
    HexWidth(n, WIDTH);
    Pow16Of16();
  }

  // --- order --------------------------------------------------------------------------------

  /** String order: the first difference decides, and a proper prefix comes first. */
  ghost predicate LexLess(a: string, b: string) {
    exists k :: FirstDiff(a, b, k)
  }

  ghost predicate FirstDiff(a: string, b: string, k: nat) {
    k <= |a| && k < |b| && a[..k] == b[..k] && (k < |a| ==> a[k] < b[k])
  }

  lemma {:induction false} LexMeansLess(a: string, b: string, k: nat)
    requires |a| == |b| && AllLowerHex(a) && AllLowerHex(b) && FirstDiff(a, b, k)
    ensures Value(a) < Value(b)
  {
    var n := |a| - 1;
    if k < n {
      assert a[..n][..k] == a[..k] && b[..n][..k] == b[..k];
      LexMeansLess(a[..n], b[..n], k);
    } else {
      assert a[..n] == b[..n];
    }
  }

  lemma {:induction false} DifferSomewhere(a: string, b: string)
    requires |a| == |b| && a != b
    ensures LexLess(a, b) || LexLess(b, a)
  {
    if a[0] != b[0] {
      assert FirstDiff(a, b, 0) || FirstDiff(b, a, 0);
    } else {
      DifferSomewhere(a[1..], b[1..]);
      if k: nat :| FirstDiff(a[1..], b[1..], k) {
        assert a[..k + 1] == [a[0]] + a[1..][..k] && b[..k + 1] == [b[0]] + b[1..][..k];
        assert FirstDiff(a, b, k + 1);
      } else {
        var k: nat :| FirstDiff(b[1..], a[1..], k);
        assert a[..k + 1] == [a[0]] + a[1..][..k] && b[..k + 1] == [b[0]] + b[1..][..k];
        assert FirstDiff(b, a, k + 1);
      }
    }
  }

  lemma LexExactly(a: string, b: string)
    requires |a| == |b| && AllLowerHex(a) && AllLowerHex(b)
    ensures LexLess(a, b) <==> Value(a) < Value(b)
  {
    if k: nat :| FirstDiff(a, b, k) {
      LexMeansLess(a, b, k);
    } else if Value(a) < Value(b) {
      DifferSomewhere(a, b);
      var k: nat :| FirstDiff(b, a, k);
      LexMeansLess(b, a, k);
    }
  }

  lemma {:induction false} ValueInjective(a: string, b: string)
    requires |a| == |b| && AllLowerHex(a) && AllLowerHex(b) && Value(a) == Value(b)
    ensures a == b
  {
    if a != b {
      DifferSomewhere(a, b);
      LexExactly(a, b);
      LexExactly(b, a);
    }
  }

  /** The first digits of a text denote the number without its last ones. */
  lemma {:induction false} ValueOfFront(s: string, d: nat)
    requires AllHex(s) && d <= |s|
    ensures Pow16(d) > 0 && Value(s[..|s| - d]) == Value(s) / Pow16(d)
  {
    if d == 0 {
      assert s[..|s|] == s;
    } else {
      var front := s[..|s| - 1];
      ValueOfFront(front, d - 1);
      assert front[..|front| - (d - 1)] == s[..|s| - d];
      assert Value(s) / 16 == Value(front);
      DivTwice(Value(s), Pow16(d - 1));
    }
  }

  lemma DivTwice(v: nat, p: nat)
    requires p > 0
    ensures v / 16 / p == v / (16 * p)
  {
    var q, r := v / 16, v % 16;
    var x, y := q / p, q % p;
    assert q == p * x + y;
    assert v == (16 * p) * x + (16 * y + r);
    QuotientIs(v, 16 * p, x, 16 * y + r);
  }

  lemma QuotientIs(v: nat, m: nat, x: nat, rest: nat)
    requires m > 0 && v == m * x + rest && rest < m
    ensures v / m == x
  {
    var q, r := v / m, v % m;
    assert v == m * q + r;
    Multiples(m, q, x);
    Multiples(m, x, q);
  }

  lemma Multiples(m: nat, a: nat, b: nat)
    ensures a < b ==> m * a + m <= m * b
  {
    if a < b { assert m * b >= m * (a + 1) == m * a + m; }
  }

  /** A shorter text comes first exactly when it is not above the front of the longer one. */
  lemma ShorterFirst(a: string, b: string)
    requires |a| <= |b|
    ensures LexLess(a, b) <==> (|a| < |b| && a == b[..|a|]) || LexLess(a, b[..|a|])
  {
    var front := b[..|a|];
    if k: nat :| FirstDiff(a, b, k) {
      assert front[..k] == b[..k];
      if k < |a| { assert FirstDiff(a, front, k); } else { assert a[..k] == a; }
    }
    if |a| < |b| && a == front { assert a[..|a|] == a && FirstDiff(a, b, |a|); }
    if k: nat :| FirstDiff(a, front, k) {
      assert front[..k] == b[..k];
      assert FirstDiff(a, b, k);
    }
  }

  lemma WidthGrows(m: nat, n: nat)
    requires m <= n
    ensures |FormatRva(m)| <= |FormatRva(n)|
  {
    HexWidth(n, |Hex(n)|);
    HexWidth(m, |Hex(n)|);
  }

  lemma SmallerFirst(a: string, b: string)
    requires |a| <= |b| && AllLowerHex(a) && AllLowerHex(b) && Value(a) < Value(b)
    ensures LexLess(a, b) <==> Value(a) <= Value(b[..|a|])
  {
    var front := b[..|a|];
    ShorterFirst(a, b);
    LexExactly(a, front);
    if Value(a) == Value(front) { ValueInjective(a, front); }
    assert |a| == |b| ==> front == b;
  }

  /** For any two addresses, the smaller one's text comes first exactly when it is not above the
      number the first digits of the larger one's text denote, cut to the same width. */
  lemma TextOrderExactly(m: nat, n: nat)
    requires m < n
    ensures |FormatRva(m)| <= |FormatRva(n)| && Pow16(|FormatRva(n)| - |FormatRva(m)|) > 0
    ensures LexLess(FormatRva(m), FormatRva(n)) <==> m <= n / Pow16(|FormatRva(n)| - |FormatRva(m)|)
  {
    var a, b := FormatRva(m), FormatRva(n);
    WidthGrows(m, n);
    RoundTrip(m);
    RoundTrip(n);
    ValueOfFront(b, |b| - |a|);
    SmallerFirst(a, b);
  }

  /** For addresses below 2^64, text order is numeric order. */
  lemma TextOrderIsNumeric(m: nat, n: nat)
    requires m < TWO_TO_64 && n < TWO_TO_64
    ensures LexLess(FormatRva(m), FormatRva(n)) <==> m < n
  {
    WidthExactly(m);
    WidthExactly(n);
    RoundTrip(m);
    RoundTrip(n);
    LexExactly(FormatRva(m), FormatRva(n));
  }

  /** Past sixteen digits it is not: the smallest such address sorts before every address of
      sixteen digits that begins with two or more. */
  lemma WiderAddressesMisorder(m: nat)
    requires m < TWO_TO_64 && FormatRva(m)[0] > '1'
    ensures LexLess(FormatRva(TWO_TO_64), FormatRva(m))
  {
    Pow16Of16();
    HexLead(WIDTH);
    var s := Hex(TWO_TO_64);
    assert s[0] == '1' && FormatRva(TWO_TO_64) == s;
    assert FirstDiff(FormatRva(TWO_TO_64), FormatRva(m), 0);
  }

  lemma {:induction false} HexLead(k: nat)
    ensures Hex(Pow16(k))[0] == '1' && |Hex(Pow16(k))| == k + 1
  {
    if k > 0 { HexLead(k - 1); }
  }

  lemma {:induction false} ValueBounds(s: string)
    requires AllHex(s) && s != ""
    ensures Value(s) < Pow16(|s|)
    ensures s[0] != '0' ==> Pow16(|s| - 1) <= Value(s)
  {
    var front := s[..|s| - 1];
    assert Pow16(|s|) == 16 * Pow16(|s| - 1);
    if front == "" {
      assert Value(front) == 0 && Pow16(0) == 1;
    } else {
      ValueBounds(front);
      assert front[0] == s[0] && Pow16(|front|) == 16 * Pow16(|front| - 1);
    }
  }

  lemma {:induction false} HexLeads(n: nat)
    requires n > 0
    ensures Hex(n)[0] != '0'
  {
    if n < 16 { HexValue(n); } else { HexLeads(n / 16); }
  }

  /** The text of a number: sixteen lower-case digits that denote it, or more without a leading zero. */
  ghost predicate TextIs(s: string, n: nat) {
    |s| >= 16 && AllLowerHex(s) && AllHex(s) && Value(s) == n && (|s| > 16 ==> s[0] != '0')
  }

  /** The printed address is that text, and there is no other. */
  lemma PrintedExactly(s: string, n: nat)
    ensures s == FormatRva(n) <==> TextIs(s, n)
  {
    var t := FormatRva(n);
    RoundTrip(n);
    if n > 0 { HexLeads(n); }
    if TextIs(s, n) {
      ValueBounds(s);
      HexWidth(n, |s|);
      HexWidth(n, |s| - 1);
      assert |t| == |s|;
      ValueInjective(s, t);
    }
  }

  // --- ranges -------------------------------------------------------------------------------

  datatype Range = Range(start: nat, end: nat)

  datatype TextRange = TextRange(start: string, end: string)

  function Print(rs: seq<Range>): seq<TextRange> {
    seq(|rs|, i requires 0 <= i < |rs| => TextRange(FormatRva(rs[i].start), FormatRva(rs[i].end)))
  }

  /** A range at or above the base and not empty, moved down by the base. */
  function KeptRange(begin: int, end: int, base: int): (rs: seq<Range>)
    ensures forall r :: r in rs ==> r.start < r.end
  {
    if begin - base < 0 || end <= begin then [] else [Range(begin - base, end - base)]
  }

  /** The ranges kept of a DIE's address ranges: at or above the base, and not empty. */
  function Kept(addrs: seq<(int, int)>, base: int): (rs: seq<Range>)
    ensures forall r :: r in rs ==> r.start < r.end
  {
    if addrs == [] then []
    else Kept(addrs[..|addrs| - 1], base) + KeptRange(addrs[|addrs| - 1].0, addrs[|addrs| - 1].1, base)
  }

  lemma KeptStep(addrs: seq<(int, int)>, a: (int, int), base: int)
    ensures Kept(addrs + [a], base) == Kept(addrs, base) + KeptRange(a.0, a.1, base)
  {
    assert (addrs + [a])[..|addrs|] == addrs;
  }

  lemma PrintStep(rs: seq<Range>, r: Range)
    ensures Print(rs + [r]) == Print(rs) + [TextRange(FormatRva(r.start), FormatRva(r.end))]
  {
  }

  method CollectRanges(addrs: seq<(int, int)>, base: int) returns (ranges: seq<Range>, texts: seq<TextRange>)
    ensures ranges == Kept(addrs, base) && texts == Print(ranges)
  {
    ranges, texts := [], [];
    for i := 0 to |addrs|
      invariant ranges == Kept(addrs[..i], base) && texts == Print(ranges)
    {
      assert addrs[..i + 1] == addrs[..i] + [addrs[i]];
      KeptStep(addrs[..i], addrs[i], base);
      var start, end := addrs[i].0 - base, addrs[i].1 - base;
      if start < 0 || end <= start { continue; }
      PrintStep(ranges, Range(start, end));
      ranges := ranges + [Range(start, end)];
      texts := texts + [TextRange(FormatRva(start), FormatRva(end))];
    }
    assert addrs[..|addrs|] == addrs;
  }

  /** Every entry is parsed, then the empty ones are dropped; one malformed entry fails all. */
  function ReadRanges(ts: seq<TextRange>): Option<seq<Range>> {
    if ts == [] then Some([])
    else
      var last := ts[|ts| - 1];
      var start, end := ParseHex(last.start), ParseHex(last.end);
      var front := ReadRanges(ts[..|ts| - 1]);
      if front.None? || start.None? || end.None? then None
      else Some(front.value + if start.value < end.value then [Range(start.value, end.value)] else [])
  }

  /** The dataset reads back exactly the ranges the extractor kept, in order. */
  lemma {:induction false} PrintedRangesReadBack(rs: seq<Range>)
    requires forall r :: r in rs ==> r.start < r.end
    ensures ReadRanges(Print(rs)) == Some(rs)
  {
    if rs != [] {
      var n := |rs| - 1;
      PrintedRangesReadBack(rs[..n]);
      assert Print(rs)[..n] == Print(rs[..n]);
      RoundTrip(rs[n].start);
      RoundTrip(rs[n].end);
      assert rs[n] in rs && rs == rs[..n] + [rs[n]];
    }
  }

  lemma ExtractedRangesReadBack(addrs: seq<(int, int)>, base: int)
    ensures ReadRanges(Print(Kept(addrs, base))) == Some(Kept(addrs, base))
  {
    PrintedRangesReadBack(Kept(addrs, base));
  }

  // --- one at a time -------------------------------------------------------------------------------

  lemma {:induction false} KeptConcat(a: seq<(int, int)>, b: seq<(int, int)>, base: int)
    ensures Kept(a + b, base) == Kept(a, base) + Kept(b, base)
  {
    if b == [] {
      Seqs.NoneAfter(a);
      Seqs.NoneAfter(Kept(a, base));
    } else {
      var front, last := b[..|b| - 1], b[|b| - 1];
      assert b == front + [last];
      KeptConcat(a, front, base);
      KeptConcatStep(a, front, last, base);
    }
  }

  lemma KeptConcatStep(a: seq<(int, int)>, front: seq<(int, int)>, last: (int, int), base: int)
    requires Kept(a + front, base) == Kept(a, base) + Kept(front, base)
    ensures Kept(a + (front + [last]), base) == Kept(a, base) + Kept(front + [last], base)
  {
    Seqs.Assoc(a, front, [last]);
    KeptStep(a + front, last, base);
    KeptStep(front, last, base);
    Seqs.Assoc(Kept(a, base), Kept(front, base), KeptRange(last.0, last.1, base));
  }

  /** Each address range counts on its own, wherever it stands: dropped if it begins below the base
      or is empty, otherwise moved down by the base. */
  lemma KeptInPlace(before: seq<(int, int)>, begin: int, end: int, after: seq<(int, int)>, base: int)
    ensures var own := if begin < base || end <= begin then [] else [Range(begin - base, end - base)];
            Kept(before + [(begin, end)] + after, base) == Kept(before, base) + own + Kept(after, base)
  {
    KeptStep(before, (begin, end), base);
    KeptConcat(before + [(begin, end)], after, base);
  }

  function SmallDigit(c: char): char { if 'A' <= c <= 'F' then (c as int + 32) as char else c }

  function SmallDigits(s: string): string { seq(|s|, i requires 0 <= i < |s| => SmallDigit(s[i])) }

  /** Capital digits denote what small ones do. */
  lemma {:induction false} CaseDoesNotMatter(s: string)
    ensures ParseHex(SmallDigits(s)) == ParseHex(s)
  {
    if s != "" && AllHex(s) {
      var n := |s| - 1;
      assert SmallDigits(s)[..n] == SmallDigits(s[..n]);
      CaseDoesNotMatter(s[..n]);
    } else if s != "" {
      var i :| 0 <= i < |s| && !IsHex(s[i]);
      assert !IsHex(SmallDigits(s)[i]);
    }
  }

  /** Reading fails on one malformed text; a well-formed pair adds its range unless that is empty. */
  lemma ReadInPlace(front: seq<TextRange>, t: TextRange)
    ensures ParseHex(t.start).None? || ParseHex(t.end).None? || ReadRanges(front).None? <==> ReadRanges(front + [t]).None?
    ensures ReadRanges(front + [t]).Some? ==>
              var start, end := ParseHex(t.start).value, ParseHex(t.end).value;
              && (start < end ==> ReadRanges(front + [t]).value == ReadRanges(front).value + [Range(start, end)])
              && (start >= end ==> ReadRanges(front + [t]).value == ReadRanges(front).value)
  {
    assert (front + [t])[..|front|] == front;
  }
}
