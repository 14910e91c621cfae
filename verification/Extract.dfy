/**
 Sharded extraction, the merge of shards and the item built from the functions
 (backend/assemblage/dwarf/extract.py).
 */
module Extract {
  import opened Wrappers
  import opened Rva
  import opened Seqs
  import opened LineAttribution

  /** A function collected from a compile unit, its lines attributed. */
  datatype Func = Func(name: string, source: string, ranges: seq<Range>, lines: seq<LineRow>)

  /** A binary: no ELF or no DWARF, or the functions of each of its compile units in order. */
  datatype File = NoDwarf | Dwarf(cus: seq<seq<Func>>)

  type Part = seq<(nat, seq<Func>)>

  // --- shards -------------------------------------------------------------------------------

  /** The units whose index is `shard` modulo `shards`, with their indices. */
  function Shard(cus: seq<seq<Func>>, shard: nat, shards: nat): Part
    requires shards > 0
  {
    if cus == [] then []
    else
      var i := |cus| - 1;
      Shard(cus[..i], shard, shards) + if i % shards == shard then [(i, cus[i])] else []
  }

  method ExtractShard(file: File, shard: nat, shards: nat) returns (part: Option<Part>)
    requires shards > 0
    ensures part == if file.NoDwarf? then None else Some(Shard(file.cus, shard, shards))
  {
    if file.NoDwarf? { return None; }
    var out: Part := [];
    for i := 0 to |file.cus|
      invariant out == Shard(file.cus[..i], shard, shards)
    {
      assert file.cus[..i + 1][..i] == file.cus[..i];
      if i % shards != shard { continue; }
      out := out + [(i, file.cus[i])];
    }
    assert file.cus[..|file.cus|] == file.cus;
    part := Some(out);
  }

  lemma {:induction false} ShardExactly(cus: seq<seq<Func>>, shard: nat, shards: nat, i: nat, fs: seq<Func>)
    requires shards > 0
    ensures (i, fs) in Shard(cus, shard, shards) <==> i < |cus| && i % shards == shard && fs == cus[i]
  {
    if cus != [] {
      ShardExactly(cus[..|cus| - 1], shard, shards, i, fs);
    }
  }

  // --- merging ------------------------------------------------------------------------------

  /** Each part is a shard of the same units, and each shard is among them. */
  ghost predicate ShardsOf(parts: seq<Part>, cus: seq<seq<Func>>, shards: nat) {
    && shards > 0
    && (forall p :: p in parts ==> exists k: nat :: k < shards && p == Shard(cus, k, shards))
    && (forall k: nat :: k < shards ==> Shard(cus, k, shards) in parts)
  }

  predicate Agrees(m: map<nat, seq<Func>>, cus: seq<seq<Func>>) {
    forall i :: i in m ==> i < |cus| && m[i] == cus[i]
  }

  function Keys(part: Part): set<nat> { set e | e in part :: e.0 }

  function AllKeys(parts: seq<Part>): set<nat> {
    if parts == [] then {} else AllKeys(parts[..|parts| - 1]) + Keys(parts[|parts| - 1])
  }

  predicate Faithful(part: Part, cus: seq<seq<Func>>) {
    forall e :: e in part ==> e.0 < |cus| && e.1 == cus[e.0]
  }

  method CollectByCu(parts: seq<Part>, ghost cus: seq<seq<Func>>) returns (byCu: map<nat, seq<Func>>)
    ensures byCu.Keys == AllKeys(parts)
    ensures (forall p :: p in parts ==> Faithful(p, cus)) ==> Agrees(byCu, cus)
  {
    byCu := map[];
    for n := 0 to |parts|
      invariant byCu.Keys == AllKeys(parts[..n])
      invariant (forall p :: p in parts ==> Faithful(p, cus)) ==> Agrees(byCu, cus)
    {
      assert parts[..n + 1][..n] == parts[..n] && parts[n] in parts;
      byCu := AddPart(byCu, parts[n], cus);
    }
    assert parts[..|parts|] == parts;
  }

  method AddPart(m: map<nat, seq<Func>>, part: Part, ghost cus: seq<seq<Func>>) returns (r: map<nat, seq<Func>>)
    ensures r.Keys == m.Keys + Keys(part)
    ensures Agrees(m, cus) && Faithful(part, cus) ==> Agrees(r, cus)
  {
    r := m;
    for k := 0 to |part|
      invariant r.Keys == m.Keys + Keys(part[..k])
      invariant Agrees(m, cus) && Faithful(part, cus) ==> Agrees(r, cus)
    {
      assert part[k] in part;
      assert Keys(part[..k + 1]) == Keys(part[..k]) + {part[k].0} by {
        assert forall e :: e in part[..k + 1] <==> e in part[..k] || e == part[k];
      }
      r := r[part[k].0 := part[k].1];
    }
    assert part[..|part|] == part;
  }

  /** The keys in ascending order. */
  method SortedKeys(m: map<nat, seq<Func>>) returns (ks: seq<nat>)
    ensures forall i, j :: 0 <= i < j < |ks| ==> ks[i] < ks[j]
    ensures forall k :: k in ks <==> k in m
  {
    ks := [];
    var left := m.Keys;
    while left != {}
      invariant left <= m.Keys
      invariant forall i, j :: 0 <= i < j < |ks| ==> ks[i] < ks[j]
      invariant forall k :: k in ks <==> k in m && k !in left
      invariant forall k, l :: k in ks && l in left ==> k < l
    {
      var k := Least(left);
      assert forall i :: 0 <= i < |ks| ==> ks[i] in ks;
      ks, left := ks + [k], left - {k};
    }
  }

  method Least(s: set<nat>) returns (least: nat)
    requires s != {}
    ensures least in s && forall k :: k in s ==> least <= k
  {
    least :| least in s;
    var left := s - {least};
    while left != {}
      invariant least in s && left <= s
      invariant forall k :: k in s ==> least <= k || k in left
    {
      var k :| k in left;
      if k < least { least := k; }
      left := left - {k};
    }
  }

  /** All functions in the order of their units. Shards of one file, in any order and any number,
      give the functions of the file as one walk lists them. */
  method MergeShards(parts: seq<Part>, ghost cus: seq<seq<Func>>, ghost shards: nat) returns (all: seq<Func>)
    ensures ShardsOf(parts, cus, shards) ==> all == Concat(cus)
  {
    var byCu := CollectByCu(parts, cus);
    var ks := SortedKeys(byCu);
    ghost var covered := ShardsOf(parts, cus, shards);
    if covered {
      CoverMeans(parts, cus, shards);
      KeysAreIndices(ks, |cus|);
    }
    all := [];
    for n := 0 to |ks|
      invariant covered ==> all == Concat(cus[..n])
    {
      assert ks[n] in byCu;
      all := all + byCu[ks[n]];
      assert covered ==> cus[..n + 1][..n] == cus[..n];
    }
    assert covered ==> cus[..|ks|] == cus;
  }

  lemma CoverMeans(parts: seq<Part>, cus: seq<seq<Func>>, shards: nat)
    requires ShardsOf(parts, cus, shards)
    ensures forall p :: p in parts ==> Faithful(p, cus)
    ensures forall i: nat :: i in AllKeys(parts) <==> i < |cus|
  {
    forall p | p in parts ensures Faithful(p, cus) {
      var k: nat :| k < shards && p == Shard(cus, k, shards);
      forall e | e in p ensures e.0 < |cus| && e.1 == cus[e.0] { ShardExactly(cus, k, shards, e.0, e.1); }
    }
    forall i: nat ensures i in AllKeys(parts) <==> i < |cus| {
      KeysFrom(parts, i);
      if i < |cus| {
        ShardExactly(cus, i % shards, shards, i, cus[i]);
        assert (i, cus[i]) in Shard(cus, i % shards, shards);
      }
    }
  }

  lemma {:induction false} KeysFrom(parts: seq<Part>, i: nat)
    ensures i in AllKeys(parts) <==> exists p :: p in parts && i in Keys(p)
  {
    if parts != [] {
      KeysFrom(parts[..|parts| - 1], i);
      assert forall p :: p in parts <==> p in parts[..|parts| - 1] || p == parts[|parts| - 1];
    }
  }

  /** The ascending list of all numbers below `n`. */
  lemma {:induction false} KeysAreIndices(ks: seq<nat>, n: nat)
    requires forall i, j :: 0 <= i < j < |ks| ==> ks[i] < ks[j]
    requires forall k: nat :: k in ks <==> k < n
    ensures |ks| == n && forall i :: 0 <= i < n ==> ks[i] == i
  {
    var m := |ks| - 1;
    assert ks != [] ==> ks[m] in ks;
    if n > 0 {
      assert n - 1 in ks && forall i :: 0 <= i < |ks| ==> ks[i] <= ks[m];
      assert ks == ks[..m] + [n - 1];
      forall k: nat ensures k in ks[..m] <==> k < n - 1 {
        assert k in ks[..m] ==> k in ks && k != n - 1;
        assert k < n - 1 ==> k in ks;
      }
      KeysAreIndices(ks[..m], n - 1);
    }
  }

  // --- the item ------------------------------------------------------------------------------

  datatype CleanLine = CleanLine(line: nat, rva: string, length: int, code: string, file: string)

  /** What is written for one function. The ratio is the number before it is printed. */
  datatype FunctionEntry = FunctionEntry(name: string, source: string, ratio: real, info: seq<TextRange>, lines: seq<CleanLine>)

  /** format(n, "x").rjust(16, "0") for any integer. */
  function RvaText(n: int): string { if n >= 0 then FormatRva(n) else Pad("-" + Hex(-n)) }

  function Clean(r: LineRow): CleanLine { CleanLine(r.line, RvaText(r.rva), r.length, r.code, r.file) }

  function CleanAll(rows: seq<LineRow>): seq<CleanLine> {
    seq(|rows|, i requires 0 <= i < |rows| => Clean(rows[i]))
  }

  function InsertRange(s: seq<Range>, x: Range): seq<Range> {
    if s != [] && s[|s| - 1].start > x.start then InsertRange(s[..|s| - 1], x) + [s[|s| - 1]] else s + [x]
  }

  /** A stable sort by start. */
  function SortRanges(s: seq<Range>): seq<Range> {
    if s == [] then [] else InsertRange(SortRanges(s[..|s| - 1]), s[|s| - 1])
  }

  function Gaps(s: seq<Range>): int {
    if |s| <= 1 then 0 else Gaps(s[..|s| - 1]) + s[|s| - 1].start - s[|s| - 2].end
  }

  function Span(s: seq<Range>): int
    requires s != []
  {
    s[|s| - 1].end - s[0].start
  }

  /** The gaps between sorted ranges, and their span; nothing for a single range. */
  datatype Extent = Extent(gap: int, total: int)

  function ExtentOf(ranges: seq<Range>): Extent {
    var s := SortRanges(ranges);
    if |ranges| <= 1 || s == [] then Extent(0, 0) else Extent(Gaps(s), Span(s))
  }

  function Percent(e: Extent): real { if e.total > 0 then e.gap as real / e.total as real * 100.0 else 0.0 }

  function Ratio(ranges: seq<Range>): real { Percent(ExtentOf(ranges)) }

  function EntryOf(f: Func): FunctionEntry {
    FunctionEntry(f.name, f.source, Ratio(f.ranges), Print(f.ranges), CleanAll(f.lines))
  }

  function Entries(fs: seq<Func>): seq<FunctionEntry> {
    if fs == [] then []
    else Entries(fs[..|fs| - 1]) + if fs[|fs| - 1].ranges == [] then [] else [EntryOf(fs[|fs| - 1])]
  }

  /** First occurrences only. */
  function Dedup<T(==)>(s: seq<T>): seq<T> {
    if s == [] then []
    else
      var front := Dedup(s[..|s| - 1]);
      if s[|s| - 1] in front then front else front + [s[|s| - 1]]
  }

  lemma EntriesStep(fs: seq<Func>, n: nat)
    requires n < |fs|
    ensures var before, after := Entries(fs[..n]), Entries(fs[..n + 1]);
            if fs[n].ranges == [] then after == before
            else after == before + [EntryOf(fs[n])] && after[..|after| - 1] == before
  {
    assert fs[..n + 1][..n] == fs[..n];
  }

  method BuildItem(fs: seq<Func>) returns (item: Option<seq<FunctionEntry>>)
    ensures item == ItemOf(fs)
  {
    var functions: seq<FunctionEntry>, seen: seq<FunctionEntry> := [], [];
    for n := 0 to |fs|
      invariant seen == functions == Dedup(Entries(fs[..n]))
    {
      EntriesStep(fs, n);
      if fs[n].ranges == [] { continue; }
      var entry := EntryOf(fs[n]);
      if entry in seen { continue; }
      seen := seen + [entry];
      functions := functions + [entry];
    }
    assert fs[..|fs|] == fs;
    item := if functions == [] then None else Some(functions);
  }

  function ItemOf(fs: seq<Func>): Option<seq<FunctionEntry>> {
    var es := Dedup(Entries(fs));
    if es == [] then None else Some(es)
  }

  // --- the dedup -----------------------------------------------------------------------------

  ghost predicate Distinct<T(!new)>(s: seq<T>) { forall i, j :: 0 <= i < j < |s| ==> s[i] != s[j] }

  /** Where each kept element stands in the original: at its first occurrence, in order. */
  ghost predicate FirstsInOrder<T(!new)>(s: seq<T>, d: seq<T>, at: seq<nat>) {
    && |at| == |d|
    && (forall k :: 0 <= k < |d| ==> at[k] < |s| && s[at[k]] == d[k] && d[k] !in s[..at[k]])
    && (forall k, l :: 0 <= k < l < |at| ==> at[k] < at[l])
  }

  lemma {:induction false} DedupKeepsAll<T(!new)>(s: seq<T>)
    ensures Distinct(Dedup(s))
    ensures forall x :: x in Dedup(s) <==> x in s
  {
    if s != [] {
      DedupKeepsAll(s[..|s| - 1]);
      assert s == s[..|s| - 1] + [s[|s| - 1]];
    }
  }

  lemma FirstsGrow<T(!new)>(s: seq<T>, x: T, d: seq<T>, at: seq<nat>)
    requires FirstsInOrder(s, d, at)
    ensures FirstsInOrder(s + [x], d, at)
    ensures x !in s ==> FirstsInOrder(s + [x], d + [x], at + [|s|])
  {
    assert (s + [x])[..|s|] == s;
    forall k | 0 <= k < |at| ensures (s + [x])[..at[k]] == s[..at[k]] {
    }
  }

  lemma {:induction false} DedupTakesFirsts<T(!new)>(s: seq<T>) returns (at: seq<nat>)
    ensures FirstsInOrder(s, Dedup(s), at)
  {
    at := [];
    if s != [] {
      var front, x := s[..|s| - 1], s[|s| - 1];
      at := DedupTakesFirsts(front);
      DedupKeepsAll(front);
      FirstsGrow(front, x, Dedup(front), at);
      assert s == front + [x];
      if x !in Dedup(front) { at := at + [|front|]; }
    }
  }

  /** No duplicates, the same elements, each at its first occurrence and in order. */
  lemma DedupKeepsFirsts<T(!new)>(s: seq<T>)
    ensures Distinct(Dedup(s))
    ensures forall x :: x in Dedup(s) <==> x in s
    ensures exists at :: FirstsInOrder(s, Dedup(s), at)
  {
    DedupKeepsAll(s);
    var at := DedupTakesFirsts(s);
  }

  lemma {:induction false} DedupOfDistinct<T(!new)>(s: seq<T>)
    requires Distinct(s)
    ensures Dedup(s) == s
  {
    if s != [] {
      DedupOfDistinct(s[..|s| - 1]);
      assert s == s[..|s| - 1] + [s[|s| - 1]];
    }
  }

  lemma DedupIdempotent<T(!new)>(s: seq<T>)
    ensures Dedup(Dedup(s)) == Dedup(s)
  {
    DedupKeepsFirsts(s);
    DedupOfDistinct(Dedup(s));
  }

  // --- the ratio ------------------------------------------------------------------------------

  function Covered(s: seq<Range>): int {
    if s == [] then 0 else Covered(s[..|s| - 1]) + s[|s| - 1].end - s[|s| - 1].start
  }

  /** The gaps between neighbours are the span less what the ranges cover. */
  lemma {:induction false} GapsExactly(s: seq<Range>)
    requires s != []
    ensures Gaps(s) == Span(s) - Covered(s)
  {
    if |s| == 1 {
      assert s[..0] == [];
    } else {
      GapsExactly(s[..|s| - 1]);
    }
  }

  lemma {:induction false} PrintInjective(a: seq<Range>, b: seq<Range>)
    requires Print(a) == Print(b)
    ensures a == b
  {
    assert |a| == |Print(a)| == |Print(b)| == |b|;
    forall i | 0 <= i < |a| ensures a[i] == b[i] {
      assert Print(a)[i] == Print(b)[i];
      FormatInjective(a[i].start, b[i].start);
      FormatInjective(a[i].end, b[i].end);
    }
  }

  /** Two functions are duplicates exactly when name, source, ranges and written lines agree:
      the ratio never tells two entries apart, and the texts identify the ranges. */
  lemma DuplicatesExactly(f: Func, g: Func)
    ensures EntryOf(f) == EntryOf(g) <==>
            f.name == g.name && f.source == g.source && f.ranges == g.ranges && CleanAll(f.lines) == CleanAll(g.lines)
  {
    if Print(f.ranges) == Print(g.ranges) { PrintInjective(f.ranges, g.ranges); }
  }

  // --- the entries, field by field ---------------------------------------------------------------

  /** A lowest start. */
  ghost predicate IsLowest(rs: seq<Range>, i: nat) { i < |rs| && forall k :: 0 <= k < |rs| ==> rs[i].start <= rs[k].start }

  /** The last of those with the highest start. */
  ghost predicate IsHighest(rs: seq<Range>, j: nat) {
    j < |rs| && forall k :: 0 <= k < |rs| ==> rs[k].start < rs[j].start || (rs[k].start == rs[j].start && k <= j)
  }

  /** From a lowest start to the end of the last range with the highest start. */
  ghost predicate IsSpan(rs: seq<Range>, total: int) {
    exists i: nat, j: nat :: IsLowest(rs, i) && IsHighest(rs, j) && total == rs[j].end - rs[i].start
  }

  ghost predicate IsRatio(rs: seq<Range>, ratio: real) {
    if |rs| <= 1 then ratio == 0.0
    else exists total: int :: IsSpan(rs, total) && ratio == Percent(Extent(total - Covered(rs), total))
  }

  ghost predicate LineDescribes(l: CleanLine, r: LineRow) {
    && l.line == r.line && l.length == r.length && l.code == r.code && l.file == r.file
    && if r.rva >= 0 then TextIs(l.rva, r.rva) else l.rva == RvaText(r.rva)
  }

  ghost predicate RangeDescribes(t: TextRange, r: Range) { TextIs(t.start, r.start) && TextIs(t.end, r.end) }

  ghost predicate Describes(e: FunctionEntry, f: Func) {
    && e.name == f.name && e.source == f.source && IsRatio(f.ranges, e.ratio)
    && |e.info| == |f.ranges| && (forall i :: 0 <= i < |e.info| ==> RangeDescribes(e.info[i], f.ranges[i]))
    && |e.lines| == |f.lines| && (forall i :: 0 <= i < |e.lines| ==> LineDescribes(e.lines[i], f.lines[i]))
  }

  ghost predicate StartsAscend(s: seq<Range>) { forall i, j :: 0 <= i < j < |s| ==> s[i].start <= s[j].start }

  lemma {:induction false} InsertRangeSorts(s: seq<Range>, x: Range)
    requires StartsAscend(s)
    ensures StartsAscend(InsertRange(s, x)) && forall y :: y in InsertRange(s, x) ==> y in s || y == x
  {
    if s != [] && s[|s| - 1].start > x.start {
      var q := InsertRange(s[..|s| - 1], x);
      InsertRangeSorts(s[..|s| - 1], x);
      forall i | 0 <= i < |q| ensures q[i].start <= s[|s| - 1].start { assert q[i] in q; }
    }
  }

  lemma {:induction false} InsertRangeKeeps(s: seq<Range>, x: Range, y: Range)
    requires y in s || y == x
    ensures y in InsertRange(s, x)
  {
    if s != [] && s[|s| - 1].start > x.start && y != s[|s| - 1] {
      InsertRangeKeeps(s[..|s| - 1], x, y);
    }
  }

  lemma {:induction false} InsertRangeCovers(s: seq<Range>, x: Range)
    ensures Covered(InsertRange(s, x)) == Covered(s) + x.end - x.start
  {
    var r := InsertRange(s, x);
    if s != [] && s[|s| - 1].start > x.start {
      InsertRangeCovers(s[..|s| - 1], x);
      assert r[..|r| - 1] == InsertRange(s[..|s| - 1], x);
    } else {
      assert r[..|r| - 1] == s;
    }
  }

  lemma {:induction false} SortRangesSorts(rs: seq<Range>)
    ensures StartsAscend(SortRanges(rs)) && forall y :: y in SortRanges(rs) ==> y in rs
  {
    if rs != [] {
      SortRangesSorts(rs[..|rs| - 1]);
      InsertRangeSorts(SortRanges(rs[..|rs| - 1]), rs[|rs| - 1]);
    }
  }

  lemma {:induction false} SortRangesKeeps(rs: seq<Range>, y: Range)
    requires y in rs
    ensures y in SortRanges(rs)
  {
    var last := rs[|rs| - 1];
    if y != last { SortRangesKeeps(rs[..|rs| - 1], y); }
    InsertRangeKeeps(SortRanges(rs[..|rs| - 1]), last, y);
  }

  lemma {:induction false} SortRangesCovers(rs: seq<Range>)
    ensures Covered(SortRanges(rs)) == Covered(rs)
  {
    if rs != [] {
      SortRangesCovers(rs[..|rs| - 1]);
      InsertRangeCovers(SortRanges(rs[..|rs| - 1]), rs[|rs| - 1]);
    }
  }

  lemma InsertRangeLast(s: seq<Range>, x: Range)
    ensures var r := InsertRange(s, x);
            r != [] && r[|r| - 1] == if s != [] && s[|s| - 1].start > x.start then s[|s| - 1] else x
  {
  }

  lemma HighestOfFront(rs: seq<Range>, j: nat)
    requires IsHighest(rs, j)
    ensures j < |rs| - 1 ==> IsHighest(rs[..|rs| - 1], j) && rs[|rs| - 1].start < rs[j].start
    ensures j == |rs| - 1 ==> forall y :: y in rs[..|rs| - 1] ==> y.start <= rs[j].start
  {
    var n := |rs| - 1;
    assert rs[n].start < rs[j].start || (rs[n].start == rs[j].start && n <= j);
    forall k | 0 <= k < n ensures rs[..n][k].start < rs[j].start || (rs[..n][k].start == rs[j].start && k <= j) {
      assert rs[..n][k] == rs[k];
    }
  }

  lemma {:induction false} SortRangesEnds(rs: seq<Range>, j: nat)
    requires IsHighest(rs, j)
    ensures SortRanges(rs) != [] && SortRanges(rs)[|SortRanges(rs)| - 1] == rs[j]
  {
    var n := |rs| - 1;
    var t := SortRanges(rs[..n]);
    HighestOfFront(rs, j);
    InsertRangeLast(t, rs[n]);
    if j < n {
      SortRangesEnds(rs[..n], j);
    } else if t != [] {
      SortRangesSorts(rs[..n]);
      assert t[|t| - 1] in rs[..n];
    }
  }

  /** The sorted ranges: first a lowest start, last the last of the highest. */
  lemma SortRangesExactly(rs: seq<Range>, i: nat, j: nat)
    requires IsLowest(rs, i) && IsHighest(rs, j)
    ensures var s := SortRanges(rs);
            s != [] && Covered(s) == Covered(rs) && s[0].start == rs[i].start && s[|s| - 1] == rs[j]
  {
    SortRangesSorts(rs);
    SortRangesKeeps(rs, rs[i]);
    SortRangesCovers(rs);
    SortRangesEnds(rs, j);
    var s := SortRanges(rs);
    assert rs[i] in s && s[0] in rs;
  }

  lemma {:induction false} HasLowest(rs: seq<Range>) returns (i: nat)
    requires rs != []
    ensures IsLowest(rs, i)
  {
    var n := |rs| - 1;
    i := n;
    if n > 0 {
      var k := HasLowest(rs[..n]);
      if rs[k].start < rs[n].start { i := k; }
    }
  }

  lemma {:induction false} HasHighest(rs: seq<Range>) returns (j: nat)
    requires rs != []
    ensures IsHighest(rs, j)
  {
    var n := |rs| - 1;
    j := n;
    if n > 0 {
      var k := HasHighest(rs[..n]);
      if rs[k].start > rs[n].start { j := k; }
    }
  }

  /** The part of the span, in percent, that the gaps are; nothing for no span. */
  lemma PercentExactly(e: Extent, ratio: real)
    ensures e.total > 0 ==> (ratio == Percent(e) <==> ratio * e.total as real == 100.0 * e.gap as real)
    ensures e.total <= 0 ==> Percent(e) == 0.0
  {
    if e.total > 0 {
      var q := e.gap as real / e.total as real;
      assert q * e.total as real == e.gap as real;
      assert (q * 100.0) * e.total as real == 100.0 * e.gap as real;
      if ratio * e.total as real == 100.0 * e.gap as real { SameFactor(ratio, q * 100.0, e.total as real); }
    }
  }

  lemma SameFactor(a: real, b: real, c: real)
    requires c > 0.0 && a * c == b * c
    ensures a == b
  {
    assert (a - b) * c == 0.0;
  }

  lemma SpanAndGaps(rs: seq<Range>, total: int)
    requires IsSpan(rs, total)
    ensures var s := SortRanges(rs); s != [] && Span(s) == total && Gaps(s) == total - Covered(rs)
  {
    var i: nat, j: nat :| IsLowest(rs, i) && IsHighest(rs, j) && total == rs[j].end - rs[i].start;
    SortRangesExactly(rs, i, j);
    GapsExactly(SortRanges(rs));
  }

  lemma HasSpan(rs: seq<Range>) returns (total: int)
    requires rs != []
    ensures IsSpan(rs, total)
  {
    var i := HasLowest(rs);
    var j := HasHighest(rs);
    total := rs[j].end - rs[i].start;
  }

  lemma ExtentExactly(rs: seq<Range>, total: int)
    requires |rs| > 1 && IsSpan(rs, total)
    ensures ExtentOf(rs) == Extent(total - Covered(rs), total)
  {
    SpanAndGaps(rs, total);
  }

  lemma RatioExactly(rs: seq<Range>, ratio: real)
    ensures IsRatio(rs, ratio) <==> ratio == Ratio(rs)
  {
    if |rs| > 1 {
      var total := HasSpan(rs);
      ExtentExactly(rs, total);
      forall other: int | IsSpan(rs, other) ensures ExtentOf(rs) == Extent(other - Covered(rs), other) {
        ExtentExactly(rs, other);
      }
    }
  }

  lemma InfoExactly(info: seq<TextRange>, rs: seq<Range>)
    ensures info == Print(rs) <==> |info| == |rs| && forall i :: 0 <= i < |info| ==> RangeDescribes(info[i], rs[i])
  {
    if |info| == |rs| {
      forall i | 0 <= i < |info| ensures RangeDescribes(info[i], rs[i]) <==> info[i] == Print(rs)[i] {
        PrintedExactly(info[i].start, rs[i].start);
        PrintedExactly(info[i].end, rs[i].end);
      }
    }
  }

  lemma LinesDescribed(ls: seq<CleanLine>, rows: seq<LineRow>)
    ensures ls == CleanAll(rows) <==> |ls| == |rows| && forall i :: 0 <= i < |ls| ==> LineDescribes(ls[i], rows[i])
  {
    if |ls| == |rows| {
      forall i | 0 <= i < |ls| ensures LineDescribes(ls[i], rows[i]) <==> ls[i] == CleanAll(rows)[i] {
        if rows[i].rva >= 0 { PrintedExactly(ls[i].rva, rows[i].rva); }
      }
    }
  }

  /** What is written for a function, and nothing else: its name, its source, the texts of its
      ranges and lines in order, and the ratio of what its ranges leave of their span. */
  lemma EntryExactly(e: FunctionEntry, f: Func)
    ensures e == EntryOf(f) <==> Describes(e, f)
  {
    RatioExactly(f.ranges, e.ratio);
    InfoExactly(e.info, f.ranges);
    LinesDescribed(e.lines, f.lines);
  }

  /** Entry `k` is that of function `at[k]`, the first with it, in order, and every function with
      ranges has its entry. */
  ghost predicate Lists(fs: seq<Func>, es: seq<FunctionEntry>, at: seq<nat>) {
    && |at| == |es| && (forall k, l :: 0 <= k < l < |at| ==> at[k] < at[l])
    && (forall k :: 0 <= k < |at| ==> at[k] < |fs| && fs[at[k]].ranges != [] && Describes(es[k], fs[at[k]]))
    && (forall k, i :: 0 <= k < |at| && 0 <= i < at[k] && i < |fs| && fs[i].ranges != [] ==> !Describes(es[k], fs[i]))
    && (forall i :: 0 <= i < |fs| && fs[i].ranges != [] ==> IsListed(fs[i], es))
  }

  ghost predicate IsListed(f: Func, es: seq<FunctionEntry>) { exists k :: 0 <= k < |es| && Describes(es[k], f) }

  /** What each element asks for, if anything. */
  function Asked(fs: seq<Func>): seq<Option<FunctionEntry>> {
    seq(|fs|, i requires 0 <= i < |fs| => if fs[i].ranges == [] then None else Some(EntryOf(fs[i])))
  }

  /** The list has what is asked for, at first occurrences, in order. */
  ghost predicate Firsts<T(!new)>(w: seq<Option<T>>, es: seq<T>, at: seq<nat>) {
    && |at| == |es| && (forall k, l :: 0 <= k < l < |at| ==> at[k] < at[l])
    && (forall k :: 0 <= k < |at| ==> at[k] < |w| && w[at[k]] == Some(es[k]))
    && (forall k, i :: 0 <= k < |at| && 0 <= i < at[k] && i < |w| ==> w[i] != Some(es[k]))
    && (forall i :: 0 <= i < |w| && w[i].Some? ==> w[i].value in es)
  }

  lemma FirstsSkip<T(!new)>(w: seq<Option<T>>, es: seq<T>, at: seq<nat>, x: Option<T>)
    requires Firsts(w, es, at) && (x.Some? ==> x.value in es)
    ensures Firsts(w + [x], es, at)
  {
  }

  lemma FirstsAdd<T(!new)>(w: seq<Option<T>>, es: seq<T>, at: seq<nat>, e: T)
    requires Firsts(w, es, at) && e !in es
    ensures Firsts(w + [Some(e)], es + [e], at + [|w|])
  {
  }

  function Somes<T>(w: seq<Option<T>>): seq<T> {
    if w == [] then [] else Somes(w[..|w| - 1]) + if w[|w| - 1].Some? then [w[|w| - 1].value] else []
  }

  lemma {:induction false} EntriesAreAsked(fs: seq<Func>)
    ensures Entries(fs) == Somes(Asked(fs))
  {
    if fs != [] {
      EntriesAreAsked(fs[..|fs| - 1]);
      assert Asked(fs)[..|fs| - 1] == Asked(fs[..|fs| - 1]);
    }
  }

  lemma DedupStep<T>(s: seq<T>, x: T)
    ensures Dedup(s + [x]) == if x in Dedup(s) then Dedup(s) else Dedup(s) + [x]
  {
    assert (s + [x])[..|s|] == s;
  }

  lemma SomesStep<T>(front: seq<Option<T>>, x: Option<T>)
    ensures Dedup(Somes(front + [x])) ==
            if x.None? || x.value in Dedup(Somes(front)) then Dedup(Somes(front)) else Dedup(Somes(front)) + [x.value]
  {
    assert (front + [x])[..|front|] == front;
    if x.Some? {
      DedupStep(Somes(front), x.value);
      assert Somes(front + [x]) == Somes(front) + [x.value];
    } else {
      assert Somes(front + [x]) == Somes(front);
    }
  }

  lemma FirstsStep<T(!new)>(front: seq<Option<T>>, x: Option<T>, at: seq<nat>) returns (after: seq<nat>)
    requires Firsts(front, Dedup(Somes(front)), at)
    ensures Firsts(front + [x], Dedup(Somes(front + [x])), after)
  {
    var es := Dedup(Somes(front));
    SomesStep(front, x);
    if x.None? || x.value in es {
      FirstsSkip(front, es, at, x);
      after := at;
    } else {
      FirstsAdd(front, es, at, x.value);
      after := at + [|front|];
    }
  }

  lemma {:induction false} DedupListsFirsts<T(!new)>(w: seq<Option<T>>) returns (at: seq<nat>)
    ensures Firsts(w, Dedup(Somes(w)), at)
  {
    at := [];
    if w != [] {
      at := DedupListsFirsts(w[..|w| - 1]);
      at := FirstsStep(w[..|w| - 1], w[|w| - 1], at);
      assert w == w[..|w| - 1] + [w[|w| - 1]];
    }
  }

  lemma FirstsAreListed(fs: seq<Func>, es: seq<FunctionEntry>, at: seq<nat>)
    requires Firsts(Asked(fs), es, at)
    ensures Lists(fs, es, at)
  {
    var w := Asked(fs);
    forall k | 0 <= k < |at| ensures at[k] < |fs| && fs[at[k]].ranges != [] && Describes(es[k], fs[at[k]]) {
      assert w[at[k]] == Some(es[k]);
      EntryExactly(es[k], fs[at[k]]);
    }
    forall k, i | 0 <= k < |at| && 0 <= i < at[k] && i < |fs| && fs[i].ranges != [] ensures !Describes(es[k], fs[i]) {
      assert w[i] != Some(es[k]);
      EntryExactly(es[k], fs[i]);
    }
    forall i | 0 <= i < |fs| && fs[i].ranges != [] ensures IsListed(fs[i], es) {
      assert w[i].Some? && w[i].value in es;
      var k :| 0 <= k < |es| && es[k] == EntryOf(fs[i]);
      EntryExactly(es[k], fs[i]);
    }
  }

  /** The item: none without ranges; otherwise one entry for each distinct function with ranges. */
  lemma ItemExactly(fs: seq<Func>) returns (at: seq<nat>)
    ensures ItemOf(fs).None? <==> forall i :: 0 <= i < |fs| ==> fs[i].ranges == []
    ensures ItemOf(fs).Some? ==> Lists(fs, ItemOf(fs).value, at)
  {
    EntriesAreAsked(fs);
    at := DedupListsFirsts(Asked(fs));
    var es := Dedup(Entries(fs));
    FirstsAreListed(fs, es, at);
    if es == [] {
      forall i | 0 <= i < |fs| ensures fs[i].ranges == [] {
        assert fs[i].ranges == [] || IsListed(fs[i], es);
      }
    } else {
      assert fs[at[0]].ranges != [];
    }
  }

  // --- serial and parallel ---------------------------------------------------------------------

  /** The one-shard walk. */
  function Serial(file: File): Option<seq<FunctionEntry>> {
    if file.NoDwarf? then None else ItemOf(Concat(file.cus))
  }

  lemma OneShardIsAll(cus: seq<seq<Func>>)
    ensures ShardsOf([Shard(cus, 0, 1)], cus, 1)
  {
  }

  /** Any number of workers, each one shard; `order` is any arrangement of their results. A pool
      that fails, or too few units, leaves the file to the serial walk. */
  method ExtractParallel(file: File, jobs: nat, poolFails: bool) returns (handled: bool, item: Option<seq<FunctionEntry>>)
    requires jobs > 1
    ensures handled ==> item == Serial(file)
    ensures !handled ==> file.Dwarf? && (poolFails || |file.cus| < 2 * jobs)
  {
    if file.NoDwarf? { return true, None; }
    if |file.cus| < 2 * jobs || poolFails { return false, None; }
    var parts: seq<Part> := [];
    for k := 0 to jobs
      invariant |parts| == k
      invariant forall i :: 0 <= i < k ==> parts[i] == Shard(file.cus, i, jobs)
    {
      var part := ExtractShard(file, k, jobs);
      if part.None? { return true, None; }
      parts := parts + [part.value];
    }
    assert ShardsOf(parts, file.cus, jobs) by {
      forall k: nat | k < jobs ensures Shard(file.cus, k, jobs) in parts { assert parts[k] in parts; }
    }
    var all := MergeShards(parts, file.cus, jobs);
    item := BuildItem(all);
    handled := true;
  }

  /** The result does not depend on the number of jobs or on the pool. */
  method ExtractItem(file: File, jobs: nat, poolFails: bool) returns (item: Option<seq<FunctionEntry>>)
    ensures item == Serial(file)
  {
    if jobs > 1 {
      var handled, parallel := ExtractParallel(file, jobs, poolFails);
      if handled { return parallel; }
    }
    var part := ExtractShard(file, 0, 1);
    if part.None? { return None; }
    OneShardIsAll(file.cus);
    var all := MergeShards([part.value], file.cus, 1);
    item := BuildItem(all);
  }
}
