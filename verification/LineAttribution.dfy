/**
 Which function a line row belongs to: bisection over the sorted ranges, then a walk back
 (backend/assemblage/dwarf/extract.py, _assign_line_entries).
 */
module LineAttribution {
  import opened Wrappers
  import opened Rva
  import Seqs

  /** A range of function `fi`, end exclusive. */
  datatype Interval = Interval(start: int, end: int, fi: nat)

  /** The order of tuples. */
  predicate Leq(a: Interval, b: Interval) {
    a.start < b.start || (a.start == b.start && (a.end < b.end || (a.end == b.end && a.fi <= b.fi)))
  }

  predicate Covers(iv: Interval, rva: int) { iv.start <= rva < iv.end }

  ghost predicate Sorted(ivs: seq<Interval>) {
    forall i, j :: 0 <= i < j < |ivs| ==> Leq(ivs[i], ivs[j])
  }

  // --- sorting ------------------------------------------------------------------------------

  function Insert(s: seq<Interval>, x: Interval): seq<Interval> {
    if s != [] && !Leq(s[|s| - 1], x) then Insert(s[..|s| - 1], x) + [s[|s| - 1]] else s + [x]
  }

  function Sort(s: seq<Interval>): seq<Interval> {
    if s == [] then [] else Insert(Sort(s[..|s| - 1]), s[|s| - 1])
  }

  lemma {:induction false} InsertSorts(s: seq<Interval>, x: Interval)
    requires Sorted(s)
    ensures Sorted(Insert(s, x)) && multiset(Insert(s, x)) == multiset(s) + multiset{x}
  {
    if s != [] && !Leq(s[|s| - 1], x) {
      var front := s[..|s| - 1];
      assert s == front + [s[|s| - 1]];
      InsertSorts(front, x);
      var r := Insert(front, x);
      forall i | 0 <= i < |r| ensures Leq(r[i], s[|s| - 1]) {
        assert r[i] in multiset(r);
        assert r[i] == x || r[i] in multiset(front);
      }
    }
  }

  lemma {:induction false} SortSorts(s: seq<Interval>)
    ensures Sorted(Sort(s)) && multiset(Sort(s)) == multiset(s)
  {
    if s != [] {
      SortSorts(s[..|s| - 1]);
      InsertSorts(Sort(s[..|s| - 1]), s[|s| - 1]);
      assert s == s[..|s| - 1] + [s[|s| - 1]];
    }
  }

  // --- rows ---------------------------------------------------------------------------------

  /** One entry of a line program; `state` false stands for a missing state. */
  datatype Entry = Entry(state: bool, endSequence: bool, line: nat, address: int, file: string, code: string)

  datatype LineRow = LineRow(line: nat, rva: int, length: int, code: string, file: string)

  predicate Usable(e: Entry) { e.state && !e.endSequence && e.line != 0 }

  function RowOf(e: Entry, base: int): LineRow { LineRow(e.line, e.address - base, 0, e.code, e.file) }

  function Rows(es: seq<Entry>, base: int): seq<LineRow> {
    if es == [] then []
    else
      var last := es[|es| - 1];
      Rows(es[..|es| - 1], base) + if Usable(last) then [RowOf(last, base)] else []
  }

  /** Insertion after every row of the same or a lower address: a stable sort. */
  function InsertRow(s: seq<LineRow>, x: LineRow): seq<LineRow> {
    if s != [] && s[|s| - 1].rva > x.rva then InsertRow(s[..|s| - 1], x) + [s[|s| - 1]] else s + [x]
  }

  function SortRows(s: seq<LineRow>): seq<LineRow> {
    if s == [] then [] else InsertRow(SortRows(s[..|s| - 1]), s[|s| - 1])
  }

  ghost predicate Ascending(s: seq<LineRow>) {
    forall i, j :: 0 <= i < j < |s| ==> s[i].rva <= s[j].rva
  }

  /** The rows at one address, in order. */
  function AtAddress(s: seq<LineRow>, rva: int): seq<LineRow> {
    if s == [] then []
    else AtAddress(s[..|s| - 1], rva) + if s[|s| - 1].rva == rva then [s[|s| - 1]] else []
  }

  lemma {:induction false} InsertRowSorts(s: seq<LineRow>, x: LineRow)
    requires Ascending(s)
    ensures Ascending(InsertRow(s, x)) && |InsertRow(s, x)| == |s| + 1
    ensures forall r :: r in InsertRow(s, x) ==> r in s || r == x
  {
    if s != [] && s[|s| - 1].rva > x.rva {
      var r := InsertRow(s[..|s| - 1], x);
      InsertRowSorts(s[..|s| - 1], x);
      forall i | 0 <= i < |r| ensures r[i].rva <= s[|s| - 1].rva {
        assert r[i] in r;
      }
    }
  }

  lemma {:induction false} InsertRowIsStable(s: seq<LineRow>, x: LineRow, rva: int)
    ensures AtAddress(InsertRow(s, x), rva) == AtAddress(s, rva) + if x.rva == rva then [x] else []
  {
    if s != [] && s[|s| - 1].rva > x.rva {
      var front := s[..|s| - 1];
      InsertRowIsStable(front, x, rva);
      assert InsertRow(s, x)[..|InsertRow(front, x)|] == InsertRow(front, x);
    } else {
      assert (s + [x])[..|s|] == s;
    }
  }

  /** Ascending addresses, and rows of one address in the order the program gave them. */
  lemma {:induction false} SortRowsIsStable(s: seq<LineRow>, rva: int)
    ensures Ascending(SortRows(s)) && |SortRows(s)| == |s|
    ensures AtAddress(SortRows(s), rva) == AtAddress(s, rva)
  {
    if s != [] {
      SortRowsIsStable(s[..|s| - 1], rva);
      InsertRowSorts(SortRows(s[..|s| - 1]), s[|s| - 1]);
      InsertRowIsStable(SortRows(s[..|s| - 1]), s[|s| - 1], rva);
    }
  }

  /** Each row's length is the distance to the next; the last one's stays 0. */
  function Lengths(s: seq<LineRow>): (r: seq<LineRow>)
    ensures |r| == |s|
  {
    seq(|s|, i requires 0 <= i < |s| => if i + 1 < |s| then s[i].(length := s[i + 1].rva - s[i].rva) else s[i])
  }

  function Total(s: seq<LineRow>): int {
    if s == [] then 0 else Total(s[..|s| - 1]) + s[|s| - 1].length
  }

  /** The lengths are non-negative and add up to the span of the rows. */
  lemma LengthsTelescope(s: seq<LineRow>)
    requires Ascending(s) && s != [] && forall r :: r in s ==> r.length == 0
    ensures Total(Lengths(s)) == s[|s| - 1].rva - s[0].rva
    ensures forall r :: r in Lengths(s) ==> r.length >= 0
  {
    TotalUpTo(s, |s| - 1);
    var r := Lengths(s);
    assert r[..|r| - 1] == Lengths(s)[..|s| - 1];
    assert s[|s| - 1] in s;
  }

  lemma {:induction false} TotalUpTo(s: seq<LineRow>, n: nat)
    requires n < |s|
    ensures Total(Lengths(s)[..n]) == s[n].rva - s[0].rva
  {
    if n > 0 {
      TotalUpTo(s, n - 1);
      assert Lengths(s)[..n][..n - 1] == Lengths(s)[..n - 1];
    }
  }

  method PrepareRows(es: seq<Entry>, base: int) returns (rows: seq<LineRow>)
    ensures rows == Lengths(SortRows(Rows(es, base)))
  {
    rows := [];
    for i := 0 to |es|
      invariant rows == Rows(es[..i], base)
    {
      assert es[..i + 1][..i] == es[..i];
      if !es[i].state || es[i].endSequence { continue; }
      if es[i].line == 0 { continue; }
      rows := rows + [RowOf(es[i], base)];
    }
    assert es[..|es|] == es;
    rows := SortRows(rows);
    ghost var sorted := rows;
    var i := 0;
    while i < |rows| - 1
      invariant |rows| == |sorted| && 0 <= i && (i < |rows| || rows == [])
      invariant forall k :: 0 <= k < |rows| ==> rows[k] == if k < i then Lengths(sorted)[k] else sorted[k]
    {
      rows := rows[i := rows[i].(length := rows[i + 1].rva - rows[i].rva)];
      i := i + 1;
    }
    assert rows == Lengths(sorted);
  }

  // --- attribution --------------------------------------------------------------------------

  /** The number of leading starts at or below `x`. */
  function BisectRight(ivs: seq<Interval>, x: int): (i: nat)
    requires Sorted(ivs)
    ensures i <= |ivs|
    ensures forall k :: 0 <= k < i ==> ivs[k].start <= x
    ensures forall k :: i <= k < |ivs| ==> x < ivs[k].start
  {
    if ivs == [] then 0
    else if ivs[|ivs| - 1].start <= x then |ivs| else BisectRight(ivs[..|ivs| - 1], x)
  }

  ghost predicate LastCovering(ivs: seq<Interval>, rva: int, idx: int) {
    && -1 <= idx < |ivs|
    && (idx >= 0 ==> Covers(ivs[idx], rva))
    && (forall k :: idx < k < |ivs| ==> !Covers(ivs[k], rva))
  }

  /** Bisection, then the walk back. */
  method Locate(ivs: seq<Interval>, rva: int) returns (idx: int)
    requires Sorted(ivs)
    ensures LastCovering(ivs, rva, idx)
  {
    idx := BisectRight(ivs, rva) - 1;
    while idx >= 0
      invariant -1 <= idx < |ivs|
      invariant forall k :: idx < k < |ivs| ==> !Covers(ivs[k], rva)
    {
      if Covers(ivs[idx], rva) { break; }
      idx := idx - 1;
    }
  }

  /** The owner of an address: the function of the greatest interval that covers it. */
  function Owner(ivs: seq<Interval>, rva: int): Option<Interval> {
    if ivs == [] then None
    else if Covers(ivs[|ivs| - 1], rva) then Some(ivs[|ivs| - 1]) else Owner(ivs[..|ivs| - 1], rva)
  }

  lemma {:induction false} OwnerIsLast(ivs: seq<Interval>, rva: int, idx: int)
    requires LastCovering(ivs, rva, idx)
    ensures Owner(ivs, rva) == if idx >= 0 then Some(ivs[idx]) else None
  {
    if ivs != [] && idx != |ivs| - 1 {
      OwnerIsLast(ivs[..|ivs| - 1], rva, idx);
    }
  }

  /** An address has an owner exactly when some range covers it; the owner is the greatest
      covering range: latest start first, then latest end, then last function. The order in
      which the ranges were listed does not matter. */
  lemma OwnerExactly(ranges: seq<Interval>, rva: int)
    ensures Owner(Sort(ranges), rva).Some? <==> exists iv :: iv in ranges && Covers(iv, rva)
    ensures Owner(Sort(ranges), rva).Some? ==>
              var o := Owner(Sort(ranges), rva).value;
              && o in ranges && Covers(o, rva)
              && forall iv :: iv in ranges && Covers(iv, rva) ==> Leq(iv, o)
  {
    SortSorts(ranges);
    OwnerOfSorted(Sort(ranges), rva);
    assert forall iv :: iv in ranges <==> iv in multiset(Sort(ranges));
    assert forall iv :: iv in Sort(ranges) <==> iv in multiset(Sort(ranges));
  }

  lemma {:induction false} OwnerOfSorted(ivs: seq<Interval>, rva: int)
    requires Sorted(ivs)
    ensures Owner(ivs, rva).Some? <==> exists iv :: iv in ivs && Covers(iv, rva)
    ensures Owner(ivs, rva).Some? ==>
              var o := Owner(ivs, rva).value;
              o in ivs && Covers(o, rva) && forall iv :: iv in ivs && Covers(iv, rva) ==> Leq(iv, o)
  {
    if ivs != [] {
      OwnerOfSorted(ivs[..|ivs| - 1], rva);
      assert forall iv :: iv in ivs <==> iv in ivs[..|ivs| - 1] || iv == ivs[|ivs| - 1];
    }
  }

  // --- nested ranges ------------------------------------------------------------------------

  predicate Inside(a: Interval, b: Interval) { b.start <= a.start && a.end <= b.end }

  predicate Disjoint(a: Interval, b: Interval) { a.end <= b.start || b.end <= a.start }

  ghost predicate Nested(ranges: seq<Interval>) {
    forall a, b :: a in ranges && b in ranges ==> Inside(a, b) || Inside(b, a) || Disjoint(a, b)
  }

  ghost predicate Innermost(ranges: seq<Interval>, o: Interval, rva: int) {
    forall iv :: iv in ranges && Covers(iv, rva) ==> Inside(o, iv)
  }

  /** No two non-empty ranges that start together end apart. */
  ghost predicate StartsDecide(ranges: seq<Interval>) {
    forall a, b :: a in ranges && b in ranges && a.start < a.end && b.start < b.end && a.start == b.start ==> a.end == b.end
  }

  /** Of properly nested ranges the owner is the innermost at every address exactly when no two
      non-empty ranges with one start have different ends. */
  lemma OwnerInnermostExactly(ranges: seq<Interval>)
    requires Nested(ranges)
    ensures (forall rva :: OwnerInnermost(ranges, rva)) <==> StartsDecide(ranges)
  {
    if StartsDecide(ranges) {
      forall rva ensures OwnerInnermost(ranges, rva) { InnermostWhereDecided(ranges, rva); }
    } else {
      var a, b :| a in ranges && b in ranges && a.start < a.end && b.start < b.end && a.start == b.start && a.end < b.end;
      OwnerExactly(ranges, a.start);
      assert Covers(a, a.start) && Covers(b, a.start);
      assert !OwnerInnermost(ranges, a.start);
    }
  }

  ghost predicate OwnerInnermost(ranges: seq<Interval>, rva: int) {
    var o := Owner(Sort(ranges), rva);
    o.Some? ==> Innermost(ranges, o.value, rva)
  }

  lemma InnermostWhereDecided(ranges: seq<Interval>, rva: int)
    requires Nested(ranges) && StartsDecide(ranges)
    ensures OwnerInnermost(ranges, rva)
  {
    OwnerExactly(ranges, rva);
    var found := Owner(Sort(ranges), rva);
    if found.Some? {
      var o := found.value;
      forall iv | iv in ranges && Covers(iv, rva) ensures Inside(o, iv) {
        assert Leq(iv, o);
        assert Inside(iv, o) || Inside(o, iv) || Disjoint(iv, o);
      }
    }
  }

  /** So distinct starts are enough. */
  lemma DistinctStartsGiveInnermost(ranges: seq<Interval>, rva: int)
    requires Nested(ranges) && Owner(Sort(ranges), rva).Some?
    requires forall a, b :: a in ranges && b in ranges && a.start == b.start ==> a == b
    ensures Innermost(ranges, Owner(Sort(ranges), rva).value, rva)
  {
    OwnerInnermostExactly(ranges);
    assert OwnerInnermost(ranges, rva);
  }

  /** On equal starts the longer range wins, not the inner one. */
  lemma EqualStartsTakeTheLonger(a: Interval, b: Interval, rva: int)
    requires a.start == b.start && a.end < b.end && Covers(a, rva)
    ensures Owner(Sort([a, b]), rva) == Some(b) && Owner(Sort([b, a]), rva) == Some(b)
    ensures !Innermost([a, b], b, rva)
  {
    OwnerExactly([a, b], rva);
    OwnerExactly([b, a], rva);
    assert a in [a, b] && b in [a, b] && Covers(b, rva) && a in [b, a] && b in [b, a];
  }

  // --- the whole assignment ------------------------------------------------------------------

  function IntervalsOfOne(rs: seq<Range>, fi: nat): seq<Interval> {
    seq(|rs|, i requires 0 <= i < |rs| => Interval(rs[i].start, rs[i].end, fi))
  }

  function IntervalsOf(funcs: seq<seq<Range>>): (ivs: seq<Interval>)
    ensures forall iv :: iv in ivs ==> iv.fi < |funcs|
  {
    if funcs == [] then []
    else IntervalsOf(funcs[..|funcs| - 1]) + IntervalsOfOne(funcs[|funcs| - 1], |funcs| - 1)
  }

  /** The rows of function `fi`, in row order. */
  function LinesOf(ivs: seq<Interval>, rows: seq<LineRow>, fi: nat): seq<LineRow> {
    if rows == [] then []
    else
      LinesOf(ivs, rows[..|rows| - 1], fi) + Mine(ivs, rows[|rows| - 1], fi)
  }

  function Mine(ivs: seq<Interval>, row: LineRow, fi: nat): seq<LineRow> {
    var o := Owner(ivs, row.rva);
    if o.Some? && o.value.fi == fi then [row] else []
  }

  lemma LinesStep(ivs: seq<Interval>, rows: seq<LineRow>, n: nat, fi: nat)
    requires n < |rows|
    ensures LinesOf(ivs, rows[..n + 1], fi) == LinesOf(ivs, rows[..n], fi) + Mine(ivs, rows[n], fi)
  {
    assert rows[..n + 1][..n] == rows[..n];
  }

  method CollectIntervals(funcs: seq<seq<Range>>) returns (ivs: seq<Interval>)
    ensures ivs == IntervalsOf(funcs)
  {
    ivs := [];
    for fi := 0 to |funcs|
      invariant ivs == IntervalsOf(funcs[..fi])
    {
      assert funcs[..fi + 1][..fi] == funcs[..fi];
      ghost var before := ivs;
      for k := 0 to |funcs[fi]|
        invariant ivs == before + IntervalsOfOne(funcs[fi], fi)[..k]
      {
        ivs := ivs + [Interval(funcs[fi][k].start, funcs[fi][k].end, fi)];
      }
    }
    assert funcs[..|funcs|] == funcs;
  }

  method AssignLines(funcs: seq<seq<Range>>, es: seq<Entry>, base: int) returns (lines: seq<seq<LineRow>>)
    ensures |lines| == |funcs|
    ensures forall fi :: 0 <= fi < |funcs| ==>
              lines[fi] == LinesOf(Sort(IntervalsOf(funcs)), Lengths(SortRows(Rows(es, base))), fi)
  {
    var ivs := CollectIntervals(funcs);
    SortSorts(ivs);
    ghost var unsorted := ivs;
    ivs := Sort(ivs);
    var rows := PrepareRows(es, base);
    lines := seq(|funcs|, _ => []);
    for n := 0 to |rows|
      invariant |lines| == |funcs|
      invariant forall fi :: 0 <= fi < |funcs| ==> lines[fi] == LinesOf(ivs, rows[..n], fi)
    {
      var idx := Locate(ivs, rows[n].rva);
      OwnerIsLast(ivs, rows[n].rva, idx);
      forall fi: nat ensures LinesOf(ivs, rows[..n + 1], fi) == LinesOf(ivs, rows[..n], fi) + Mine(ivs, rows[n], fi) {
        LinesStep(ivs, rows, n, fi);
      }
      if idx >= 0 {
        var fi := ivs[idx].fi;
        assert ivs[idx] in multiset(ivs) && ivs[idx] in unsorted;
        lines := lines[fi := lines[fi] + [rows[n]]];
      }
    }
    assert rows[..|rows|] == rows;
  }

  /** A row is among a function's lines exactly when that function owns its address. */
  lemma {:induction false} LinesExactly(ivs: seq<Interval>, rows: seq<LineRow>, fi: nat, r: LineRow)
    ensures r in LinesOf(ivs, rows, fi) <==>
            r in rows && Owner(ivs, r.rva).Some? && Owner(ivs, r.rva).value.fi == fi
  {
    if rows != [] {
      LinesExactly(ivs, rows[..|rows| - 1], fi, r);
      assert r in rows <==> r in rows[..|rows| - 1] || r == rows[|rows| - 1];
    }
  }

  function CountOwned(ivs: seq<Interval>, rows: seq<LineRow>): nat {
    if rows == [] then 0
    else CountOwned(ivs, rows[..|rows| - 1]) + if Owner(ivs, rows[|rows| - 1].rva).Some? then 1 else 0
  }

  /** How many lines the first `n` functions hold together. */
  function LinesHeld(ivs: seq<Interval>, rows: seq<LineRow>, n: nat): nat {
    if n == 0 then 0 else LinesHeld(ivs, rows, n - 1) + |LinesOf(ivs, rows, n - 1)|
  }

  lemma {:induction false} OneMoreRow(ivs: seq<Interval>, rows: seq<LineRow>, n: nat)
    requires rows != []
    ensures var o := Owner(ivs, rows[|rows| - 1].rva);
            LinesHeld(ivs, rows, n) ==
            LinesHeld(ivs, rows[..|rows| - 1], n) + if o.Some? && o.value.fi < n then 1 else 0
  {
    if n > 0 {
      OneMoreRow(ivs, rows, n - 1);
      LinesStep(ivs, rows, |rows| - 1, n - 1);
      assert rows[..|rows|] == rows;
    }
  }

  /** Every owned row is appended once in all, and no other row is. */
  lemma {:induction false} EachOwnedRowOnce(funcs: seq<seq<Range>>, rows: seq<LineRow>)
    ensures LinesHeld(Sort(IntervalsOf(funcs)), rows, |funcs|) == CountOwned(Sort(IntervalsOf(funcs)), rows)
  {
    var ivs := Sort(IntervalsOf(funcs));
    if rows == [] {
      NoneHeld(ivs, |funcs|);
    } else {
      EachOwnedRowOnce(funcs, rows[..|rows| - 1]);
      OneMoreRow(ivs, rows, |funcs|);
      OwnerExactly(IntervalsOf(funcs), rows[|rows| - 1].rva);
    }
  }

  lemma {:induction false} NoneHeld(ivs: seq<Interval>, n: nat)
    ensures LinesHeld(ivs, [], n) == 0
  {
    if n > 0 { NoneHeld(ivs, n - 1); }
  }

  // --- from the line program to the functions ------------------------------------------------------

  /** The entries at one address that have a state and a line and end no sequence, in order. */
  function EntriesAt(es: seq<Entry>, base: int, rva: int): seq<Entry> {
    if es == [] then []
    else
      var e := es[|es| - 1];
      EntriesAt(es[..|es| - 1], base, rva) +
      if e.state && !e.endSequence && e.line > 0 && e.address == base + rva then [e] else []
  }

  ghost predicate IsEntry(r: LineRow, e: Entry, rva: int) {
    r.rva == rva && r.line == e.line && r.code == e.code && r.file == e.file
  }

  ghost predicate AreEntries(rows: seq<LineRow>, es: seq<Entry>, rva: int) {
    |rows| == |es| && forall i :: 0 <= i < |es| ==> IsEntry(rows[i], es[i], rva)
  }

  lemma AtStep(s: seq<LineRow>, r: LineRow, rva: int)
    ensures AtAddress(s + [r], rva) == if r.rva == rva then AtAddress(s, rva) + [r] else AtAddress(s, rva)
  {
    assert (s + [r])[..|s|] == s;
    Seqs.NoneAfter(AtAddress(s, rva));
  }

  lemma EntriesAtStep(es: seq<Entry>, e: Entry, base: int, rva: int)
    ensures EntriesAt(es + [e], base, rva) ==
            if Usable(e) && e.address == base + rva then EntriesAt(es, base, rva) + [e] else EntriesAt(es, base, rva)
  {
    assert (es + [e])[..|es|] == es;
    Seqs.NoneAfter(EntriesAt(es, base, rva));
  }

  lemma RowsStep(es: seq<Entry>, e: Entry, base: int)
    ensures Rows(es + [e], base) == if Usable(e) then Rows(es, base) + [RowOf(e, base)] else Rows(es, base)
  {
    assert (es + [e])[..|es|] == es;
    Seqs.NoneAfter(Rows(es, base));
  }

  lemma AreEntriesStep(rows: seq<LineRow>, es: seq<Entry>, r: LineRow, e: Entry, rva: int)
    requires AreEntries(rows, es, rva) && IsEntry(r, e, rva)
    ensures AreEntries(rows + [r], es + [e], rva)
  {
  }

  lemma {:induction false} RowsAreEntries(es: seq<Entry>, base: int, rva: int)
    ensures AreEntries(AtAddress(Rows(es, base), rva), EntriesAt(es, base, rva), rva)
  {
    if es != [] {
      var front, e := es[..|es| - 1], es[|es| - 1];
      assert es == front + [e];
      RowsAreEntries(front, base, rva);
      RowsStep(front, e, base);
      EntriesAtStep(front, e, base, rva);
      var rows, r := Rows(front, base), RowOf(e, base);
      if Usable(e) {
        AtStep(rows, r, rva);
        if r.rva == rva { AreEntriesStep(AtAddress(rows, rva), EntriesAt(front, base, rva), r, e, rva); }
      }
    }
  }

  /** Lengths change nothing else. */
  lemma {:induction false} LengthsKeep(s: seq<LineRow>, t: seq<LineRow>, rva: int, es: seq<Entry>)
    requires |s| == |t| && forall i :: 0 <= i < |s| ==> t[i] == s[i].(length := t[i].length)
    requires AreEntries(AtAddress(s, rva), es, rva)
    ensures AreEntries(AtAddress(t, rva), es, rva)
  {
    if s != [] {
      var n := |s| - 1;
      if s[n].rva == rva {
        assert AtAddress(s, rva)[..|es| - 1] == AtAddress(s[..n], rva);
        LengthsKeep(s[..n], t[..n], rva, es[..|es| - 1]);
      } else {
        LengthsKeep(s[..n], t[..n], rva, es);
      }
    }
  }

  ghost predicate LengthIsGap(rows: seq<LineRow>, i: nat) {
    i < |rows| && rows[i].length == if i + 1 < |rows| then rows[i + 1].rva - rows[i].rva else 0
  }

  lemma {:induction false} RowsHaveNoLength(es: seq<Entry>, base: int)
    ensures forall r :: r in Rows(es, base) ==> r.length == 0
  {
    if es != [] { RowsHaveNoLength(es[..|es| - 1], base); }
  }

  lemma {:induction false} SortedRowsAreRows(s: seq<LineRow>)
    ensures Ascending(SortRows(s)) && forall r :: r in SortRows(s) ==> r in s
  {
    if s != [] {
      SortedRowsAreRows(s[..|s| - 1]);
      InsertRowSorts(SortRows(s[..|s| - 1]), s[|s| - 1]);
    }
  }

  lemma LengthAt(s: seq<LineRow>, i: nat)
    requires i < |s|
    ensures Lengths(s)[i].rva == s[i].rva && (s[i].length == 0 ==> LengthIsGap(Lengths(s), i))
  {
  }

  lemma LengthsAreGaps(s: seq<LineRow>)
    requires Ascending(s) && forall r :: r in s ==> r.length == 0
    ensures Ascending(Lengths(s)) && forall i: nat :: i < |s| ==> LengthIsGap(Lengths(s), i)
  {
    var r := Lengths(s);
    forall i: nat | i < |s| ensures r[i].rva == s[i].rva && LengthIsGap(r, i) {
      assert s[i] in s;
      LengthAt(s, i);
    }
  }

  lemma PreparedLengths(es: seq<Entry>, base: int)
    ensures var rows := Lengths(SortRows(Rows(es, base)));
            Ascending(rows) && forall i: nat :: i < |rows| ==> LengthIsGap(rows, i)
  {
    RowsHaveNoLength(es, base);
    SortedRowsAreRows(Rows(es, base));
    LengthsAreGaps(SortRows(Rows(es, base)));
  }

  lemma PreparedEntries(es: seq<Entry>, base: int, rva: int)
    ensures AreEntries(AtAddress(Lengths(SortRows(Rows(es, base))), rva), EntriesAt(es, base, rva), rva)
  {
    var rows := Rows(es, base);
    SortRowsIsStable(rows, rva);
    RowsAreEntries(es, base, rva);
    LengthsKeep(SortRows(rows), Lengths(SortRows(rows)), rva, EntriesAt(es, base, rva));
  }

  /** The prepared rows ascend; each one's length is the distance to the next, the last one's 0; and
      those at an address are the entries of the program there, in its order. */
  lemma PreparedExactly(es: seq<Entry>, base: int, rva: int)
    ensures var rows := Lengths(SortRows(Rows(es, base)));
            && Ascending(rows) && (forall i: nat :: i < |rows| ==> LengthIsGap(rows, i))
            && AreEntries(AtAddress(rows, rva), EntriesAt(es, base, rva), rva)
  {
    PreparedLengths(es, base);
    PreparedEntries(es, base, rva);
  }

  /** Range `k` of function `fi` covers the address, and of all that do none starts later, nor as
      late and ends later, nor does one of a later function start and end with it. */
  ghost predicate OwnsBy(funcs: seq<seq<Range>>, fi: nat, k: nat, rva: int) {
    && fi < |funcs| && k < |funcs[fi]|
    && funcs[fi][k].start <= rva < funcs[fi][k].end
    && forall fj: nat, l: nat :: fj < |funcs| && l < |funcs[fj]| && funcs[fj][l].start <= rva < funcs[fj][l].end ==>
         || funcs[fj][l].start < funcs[fi][k].start
         || (funcs[fj][l].start == funcs[fi][k].start && funcs[fj][l].end < funcs[fi][k].end)
         || (funcs[fj][l] == funcs[fi][k] && fj <= fi)
  }

  ghost predicate Owns(funcs: seq<seq<Range>>, fi: nat, rva: int) { exists k: nat :: OwnsBy(funcs, fi, k, rva) }

  ghost predicate IsRangeOf(funcs: seq<seq<Range>>, iv: Interval, k: nat) {
    iv.fi < |funcs| && k < |funcs[iv.fi]| && funcs[iv.fi][k].start == iv.start && funcs[iv.fi][k].end == iv.end
  }

  lemma {:induction false} IntervalIsRange(funcs: seq<seq<Range>>, iv: Interval) returns (k: nat)
    requires iv in IntervalsOf(funcs)
    ensures IsRangeOf(funcs, iv, k)
  {
    var n := |funcs| - 1;
    if iv in IntervalsOfOne(funcs[n], n) {
      k :| 0 <= k < |funcs[n]| && IntervalsOfOne(funcs[n], n)[k] == iv;
    } else {
      k := IntervalIsRange(funcs[..n], iv);
    }
  }

  lemma {:induction false} RangeIsInterval(funcs: seq<seq<Range>>, iv: Interval, k: nat)
    requires IsRangeOf(funcs, iv, k)
    ensures iv in IntervalsOf(funcs)
  {
    var n := |funcs| - 1;
    if iv.fi < n {
      RangeIsInterval(funcs[..n], iv, k);
    } else {
      assert IntervalsOfOne(funcs[n], n)[k] == iv;
    }
  }

  lemma IntervalsExactly(funcs: seq<seq<Range>>, iv: Interval)
    ensures iv in IntervalsOf(funcs) <==> exists k: nat :: IsRangeOf(funcs, iv, k)
  {
    if iv in IntervalsOf(funcs) { var k := IntervalIsRange(funcs, iv); }
    if k: nat :| IsRangeOf(funcs, iv, k) { RangeIsInterval(funcs, iv, k); }
  }

  lemma OwnerOwns(funcs: seq<seq<Range>>, fi: nat, rva: int)
    ensures var o := Owner(Sort(IntervalsOf(funcs)), rva); (o.Some? && o.value.fi == fi) <==> Owns(funcs, fi, rva)
  {
    var ivs := IntervalsOf(funcs);
    var found := Owner(Sort(ivs), rva);
    OwnerExactly(ivs, rva);
    if found.Some? && found.value.fi == fi { OwnerIsGreatest(funcs, found.value, rva); }
    if k: nat :| OwnsBy(funcs, fi, k, rva) {
      var iv := Interval(funcs[fi][k].start, funcs[fi][k].end, fi);
      assert IsRangeOf(funcs, iv, k);
      IntervalsExactly(funcs, iv);
      assert Covers(iv, rva);
      var o := found.value;
      IntervalsExactly(funcs, o);
      var l: nat :| IsRangeOf(funcs, o, l);
      assert funcs[o.fi][l].start <= rva < funcs[o.fi][l].end;
    }
  }

  lemma OwnerIsGreatest(funcs: seq<seq<Range>>, o: Interval, rva: int)
    requires o in IntervalsOf(funcs) && Covers(o, rva)
    requires forall iv :: iv in IntervalsOf(funcs) && Covers(iv, rva) ==> Leq(iv, o)
    ensures Owns(funcs, o.fi, rva)
  {
    IntervalsExactly(funcs, o);
    var k: nat :| IsRangeOf(funcs, o, k);
    forall fj: nat, l: nat | fj < |funcs| && l < |funcs[fj]| && funcs[fj][l].start <= rva < funcs[fj][l].end
      ensures Leq(Interval(funcs[fj][l].start, funcs[fj][l].end, fj), o)
    {
      var iv := Interval(funcs[fj][l].start, funcs[fj][l].end, fj);
      assert IsRangeOf(funcs, iv, l);
      IntervalsExactly(funcs, iv);
    }
    assert OwnsBy(funcs, o.fi, k, rva);
  }

  lemma {:induction false} LinesAt(ivs: seq<Interval>, rows: seq<LineRow>, fi: nat, rva: int)
    ensures var o := Owner(ivs, rva);
            AtAddress(LinesOf(ivs, rows, fi), rva) == if o.Some? && o.value.fi == fi then AtAddress(rows, rva) else []
  {
    if rows != [] {
      var front, row := rows[..|rows| - 1], rows[|rows| - 1];
      LinesAt(ivs, front, fi, rva);
      assert rows == front + [row];
      AtStep(front, row, rva);
      AtStep(LinesOf(ivs, front, fi), row, rva);
      Seqs.NoneAfter(LinesOf(ivs, front, fi));
    }
  }

  lemma AscendingStep(s: seq<LineRow>, r: LineRow)
    requires Ascending(s) && forall x :: x in s ==> x.rva <= r.rva
    ensures Ascending(s + [r])
  {
    assert forall i :: 0 <= i < |s| ==> s[i] in s;
  }

  lemma {:induction false} LinesAscend(ivs: seq<Interval>, rows: seq<LineRow>, fi: nat)
    requires Ascending(rows)
    ensures Ascending(LinesOf(ivs, rows, fi)) && forall r :: r in LinesOf(ivs, rows, fi) ==> r in rows
  {
    if rows != [] {
      var front, row := rows[..|rows| - 1], rows[|rows| - 1];
      LinesAscend(ivs, front, fi);
      assert forall r :: r in front ==> r in rows && r.rva <= row.rva;
      AscendingStep(LinesOf(ivs, front, fi), row);
      Seqs.NoneAfter(LinesOf(ivs, front, fi));
    }
  }

  /** A function's lines ascend, and at each address are all the prepared rows there, in order, if
      the function owns the address, and none otherwise. */
  lemma LinesOfFunction(funcs: seq<seq<Range>>, rows: seq<LineRow>, fi: nat, rva: int)
    requires Ascending(rows)
    ensures var mine := LinesOf(Sort(IntervalsOf(funcs)), rows, fi);
            && Ascending(mine)
            && (Owns(funcs, fi, rva) ==> AtAddress(mine, rva) == AtAddress(rows, rva))
            && (!Owns(funcs, fi, rva) ==> AtAddress(mine, rva) == [])
  {
    LinesAscend(Sort(IntervalsOf(funcs)), rows, fi);
    LinesAt(Sort(IntervalsOf(funcs)), rows, fi, rva);
    OwnerOwns(funcs, fi, rva);
  }
}
