/**
 What one flush of the dataset writer holds, as a function of the binaries placed since the last
 one (backend/assemblage/dataset/construct.py, db_construct).
 */
module DatasetBatches {
  import opened Wrappers
  import opened Rva
  import opened Seqs
  import opened DatasetStore

  // --- the input -----------------------------------------------------------------------------

  datatype LineInfo = LineInfo(line: int, file: string, code: string, rva: string, length: int)

  datatype FuncInfo = FuncInfo(name: string, ranges: seq<TextRange>, lines: seq<LineInfo>)

  /** A function that is written: its ranges as numbers, and its lines that have a number. */
  datatype Kept = Kept(name: string, ranges: seq<Range>, lines: seq<LineInfo>)

  const SECTION_PSEUDO: set<string> := {
    ".text", ".bss", ".data", ".rodata", ".plt", ".init", ".fini", ".init_array", ".fini_array",
    ".dynsym", ".dynstr", ".symtab", ".strtab"}

  /** Nothing for a nameless or section name, or without a proper range; None stands for the
      exception a malformed address raises. */
  function KeptOne(f: FuncInfo): (r: Option<seq<Kept>>)
    ensures r.Some? ==> forall k :: k in r.value ==> Proper(k)
  {
    if f.name == "" || f.name in SECTION_PSEUDO then Some([])
    else
      match ReadRanges(f.ranges)
      case None => None
      case Some(rs) => ReadRangesAreProper(f.ranges); if rs == [] then Some([]) else Some([Kept(f.name, rs, Numbered(f.lines))])
  }

  function Numbered(ls: seq<LineInfo>): seq<LineInfo> {
    if ls == [] then [] else Numbered(ls[..|ls| - 1]) + if ls[|ls| - 1].line != 0 then [ls[|ls| - 1]] else []
  }

  predicate Proper(k: Kept) { k.ranges != [] && forall r :: r in k.ranges ==> r.start < r.end }

  lemma {:induction false} ReadRangesAreProper(ts: seq<TextRange>)
    ensures ReadRanges(ts).Some? ==> forall r :: r in ReadRanges(ts).value ==> r.start < r.end
  {
    if ts != [] { ReadRangesAreProper(ts[..|ts| - 1]); }
  }

  function KeptIn(fs: seq<FuncInfo>): (r: Option<seq<Kept>>)
    ensures r.Some? ==> forall k :: k in r.value ==> Proper(k)
  {
    if fs == [] then Some([])
    else
      var front, last := KeptIn(fs[..|fs| - 1]), KeptOne(fs[|fs| - 1]);
      if front.None? || last.None? then None else Some(front.value + last.value)
  }

  /** A moved binary: its id, its name and its functions. */
  datatype Placed = Placed(id: int, name: string, kept: seq<Kept>)

  // --- the rows ------------------------------------------------------------------------------

  datatype Entry = Entry(binaryId: int, k: Kept)

  function Tagged(id: int, ks: seq<Kept>): seq<Entry> {
    seq(|ks|, i requires 0 <= i < |ks| => Entry(id, ks[i]))
  }

  function EntriesOf(ps: seq<Placed>): seq<Entry> {
    Concat(seq(|ps|, i requires 0 <= i < |ps| => Tagged(ps[i].id, ps[i].kept)))
  }

  function BinaryRows(ps: seq<Placed>): seq<BinaryRow> {
    seq(|ps|, i requires 0 <= i < |ps| => BinaryRow(ps[i].id, ps[i].name))
  }

  function FunctionRows(es: seq<Entry>, first: int): seq<FunctionRow> {
    seq(|es|, i requires 0 <= i < |es| => FunctionRow(first + i, es[i].binaryId, es[i].k.name))
  }

  function RvasOf(rs: seq<Range>, id: int): seq<RvaRow> {
    seq(|rs|, i requires 0 <= i < |rs| => RvaRow(rs[i].start, rs[i].end, id))
  }

  function RvaParts(es: seq<Entry>, first: int): seq<seq<RvaRow>> {
    seq(|es|, i requires 0 <= i < |es| => RvasOf(es[i].k.ranges, first + i))
  }

  function RvaRows(es: seq<Entry>, first: int): seq<RvaRow> { Concat(RvaParts(es, first)) }

  function LineOf(l: LineInfo, id: int): SourceLine {
    SourceLine(l.line, l.file, l.code, id, if l.rva == "" then "" else "0x" + l.rva, l.length)
  }

  function LinesOf(ls: seq<LineInfo>, id: int): seq<SourceLine> {
    seq(|ls|, i requires 0 <= i < |ls| => LineOf(ls[i], id))
  }

  function LineParts(es: seq<Entry>, first: int): seq<seq<SourceLine>> {
    seq(|es|, i requires 0 <= i < |es| => LinesOf(es[i].k.lines, first + i))
  }

  function LineRows(es: seq<Entry>, first: int): seq<SourceLine> { Concat(LineParts(es, first)) }

  /** The rows of these binaries when function ids start at `first`. */
  function BatchOf(ps: seq<Placed>, first: int, withLines: bool): Batch {
    var es := EntriesOf(ps);
    Batch(BinaryRows(ps), FunctionRows(es, first), if withLines then LineRows(es, first) else [], RvaRows(es, first))
  }

  // --- integrity -----------------------------------------------------------------------------

  predicate AllProper(ps: seq<Placed>) {
    forall p :: p in ps ==> forall k :: k in p.kept ==> Proper(k)
  }

  lemma EntryIsFromPlaced(ps: seq<Placed>, e: Entry)
    requires AllProper(ps) && e in EntriesOf(ps)
    ensures Proper(e.k) && HasBinary(BinaryRows(ps), e.binaryId)
  {
    var parts := seq(|ps|, i requires 0 <= i < |ps| => Tagged(ps[i].id, ps[i].kept));
    ConcatHolds(parts, e);
    var i :| 0 <= i < |ps| && e in Tagged(ps[i].id, ps[i].kept);
    assert ps[i] in ps && e.k in ps[i].kept;
    assert BinaryRows(ps)[i] in BinaryRows(ps);
  }

  predicate Refers(r: RvaRow, first: int, end: int) { first <= r.functionId < end && r.start < r.end }

  lemma OwnRvas(rs: seq<Range>, id: int, r: RvaRow)
    requires r in RvasOf(rs, id) && forall x :: x in rs ==> x.start < x.end
    ensures r.functionId == id && r.start < r.end
  {
    var i :| 0 <= i < |rs| && RvasOf(rs, id)[i] == r;
    assert rs[i] in rs;
  }

  lemma RvasRefer(es: seq<Entry>, first: int, r: RvaRow)
    requires (forall e :: e in es ==> Proper(e.k)) && r in RvaRows(es, first)
    ensures Refers(r, first, first + |es|)
  {
    ConcatHolds(RvaParts(es, first), r);
    var i :| 0 <= i < |es| && r in RvaParts(es, first)[i];
    assert es[i] in es;
    OwnRvas(es[i].k.ranges, first + i, r);
  }

  predicate HasRva(rvas: seq<RvaRow>, id: int) { exists r :: r in rvas && r.functionId == id }

  lemma EachHasRva(es: seq<Entry>, first: int, id: int)
    requires (forall e :: e in es ==> Proper(e.k)) && first <= id < first + |es|
    ensures HasRva(RvaRows(es, first), id)
  {
    var i := id - first;
    assert es[i] in es;
    var r := RvasOf(es[i].k.ranges, id)[0];
    assert r in RvaParts(es, first)[i];
    ConcatHolds(RvaParts(es, first), r);
  }

  lemma OwnLine(ls: seq<LineInfo>, id: int, l: SourceLine)
    requires l in LinesOf(ls, id)
    ensures l.functionId == id
  {
    var j :| 0 <= j < |ls| && LinesOf(ls, id)[j] == l;
  }

  lemma LinesRefer(es: seq<Entry>, first: int, l: SourceLine)
    requires l in LineRows(es, first)
    ensures first <= l.functionId < first + |es|
  {
    ConcatHolds(LineParts(es, first), l);
    var i :| 0 <= i < |es| && l in LineParts(es, first)[i];
    OwnLine(es[i].k.lines, first + i, l);
  }

  /** One flush is closed under its references: function ids are consecutive, every rva and line
      row refers to a function of the flush, every range has start < end, every function has a
      range and a binary in the flush. */
  ghost predicate Closed(b: Batch, first: int) {
    var end := first + |b.functions|;
    && (forall i :: 0 <= i < |b.functions| ==> b.functions[i].id == first + i)
    && (forall r :: r in b.rvas ==> Refers(r, first, end))
    && (forall l :: l in b.lines ==> first <= l.functionId < end)
    && (forall id :: first <= id < end ==> HasRva(b.rvas, id))
    && (forall f :: f in b.functions ==> HasBinary(b.binaries, f.binaryId))
  }

  predicate HasBinary(bs: seq<BinaryRow>, id: int) { exists x :: x in bs && x.id == id }

  lemma BatchIsClosed(ps: seq<Placed>, first: int, withLines: bool)
    requires AllProper(ps)
    ensures Closed(BatchOf(ps, first, withLines), first)
  {
    var es, b := EntriesOf(ps), BatchOf(ps, first, withLines);
    forall e | e in es ensures Proper(e.k) && HasBinary(b.binaries, e.binaryId) { EntryIsFromPlaced(ps, e); }
    forall l | l in b.lines ensures first <= l.functionId < first + |es| { LinesRefer(es, first, l); }
    forall r | r in b.rvas ensures Refers(r, first, first + |es|) { RvasRefer(es, first, r); }
    forall id | first <= id < first + |es| ensures HasRva(b.rvas, id) { EachHasRva(es, first, id); }
    forall f | f in b.functions ensures HasBinary(b.binaries, f.binaryId) {
      var i :| 0 <= i < |b.functions| && b.functions[i] == f;
      assert es[i] in es;
    }
  }

  // --- growing a batch ------------------------------------------------------------------------

  /** The last binary with one more function. */
  function WithOne(ps: seq<Placed>, ks: seq<Kept>): seq<Placed>
    requires ps != []
  {
    ps[..|ps| - 1] + [ps[|ps| - 1].(kept := ps[|ps| - 1].kept + ks)]
  }

  lemma EntriesWithOne(ps: seq<Placed>, k: Kept)
    requires ps != []
    ensures EntriesOf(WithOne(ps, [k])) == EntriesOf(ps) + [Entry(ps[|ps| - 1].id, k)]
  {
    var n := |ps| - 1;
    var p := ps[n].(kept := ps[n].kept + [k]);
    EntriesOneMore(ps[..n], p);
    EntriesOneMore(ps[..n], ps[n]);
    assert ps == ps[..n] + [ps[n]];
    assert Tagged(p.id, p.kept) == Tagged(ps[n].id, ps[n].kept) + [Entry(ps[n].id, k)];
  }

  lemma EntriesOneMore(ps: seq<Placed>, p: Placed)
    ensures EntriesOf(ps + [p]) == EntriesOf(ps) + Tagged(p.id, p.kept)
  {
    var parts := seq(|ps|, i requires 0 <= i < |ps| => Tagged(ps[i].id, ps[i].kept));
    var all := seq(|ps + [p]|, i requires 0 <= i < |ps + [p]| => Tagged((ps + [p])[i].id, (ps + [p])[i].kept));
    ConcatOneMore(parts, Tagged(p.id, p.kept));
    assert all == parts + [Tagged(p.id, p.kept)];
  }

  lemma RvaRowsOneMore(es: seq<Entry>, e: Entry, first: int)
    ensures RvaRows(es + [e], first) == RvaRows(es, first) + RvasOf(e.k.ranges, first + |es|)
  {
    ConcatOneMore(RvaParts(es, first), RvasOf(e.k.ranges, first + |es|));
    assert RvaParts(es + [e], first) == RvaParts(es, first) + [RvasOf(e.k.ranges, first + |es|)];
  }

  lemma LineRowsOneMore(es: seq<Entry>, e: Entry, first: int)
    ensures LineRows(es + [e], first) == LineRows(es, first) + LinesOf(e.k.lines, first + |es|)
  {
    ConcatOneMore(LineParts(es, first), LinesOf(e.k.lines, first + |es|));
    assert LineParts(es + [e], first) == LineParts(es, first) + [LinesOf(e.k.lines, first + |es|)];
  }

  lemma RowsOneMore(es: seq<Entry>, e: Entry, first: int)
    ensures FunctionRows(es + [e], first) == FunctionRows(es, first) + [FunctionRow(first + |es|, e.binaryId, e.k.name)]
    ensures RvaRows(es + [e], first) == RvaRows(es, first) + RvasOf(e.k.ranges, first + |es|)
    ensures LineRows(es + [e], first) == LineRows(es, first) + LinesOf(e.k.lines, first + |es|)
  {
    RvaRowsOneMore(es, e, first);
    LineRowsOneMore(es, e, first);
  }

  lemma BatchWithOne(ps: seq<Placed>, k: Kept, first: int, withLines: bool)
    requires ps != []
    ensures var b := BatchOf(ps, first, withLines); var id := first + |EntriesOf(ps)|;
            BatchOf(WithOne(ps, [k]), first, withLines) ==
            Batch(b.binaries, b.functions + [FunctionRow(id, ps[|ps| - 1].id, k.name)],
                  if withLines then b.lines + LinesOf(k.lines, id) else [], b.rvas + RvasOf(k.ranges, id))
  {
    EntriesWithOne(ps, k);
    RowsOneMore(EntriesOf(ps), Entry(ps[|ps| - 1].id, k), first);
    assert BinaryRows(WithOne(ps, [k])) == BinaryRows(ps);
  }

  lemma BatchWithBinary(ps: seq<Placed>, id: int, name: string, first: int, withLines: bool)
    ensures var b := BatchOf(ps, first, withLines);
            BatchOf(ps + [Placed(id, name, [])], first, withLines) == b.(binaries := b.binaries + [BinaryRow(id, name)])
    ensures EntriesOf(ps + [Placed(id, name, [])]) == EntriesOf(ps)
  {
    EntriesOneMore(ps, Placed(id, name, []));
    assert EntriesOf(ps) + Tagged(id, []) == EntriesOf(ps);
    assert BinaryRows(ps + [Placed(id, name, [])]) == BinaryRows(ps) + [BinaryRow(id, name)];
  }

  // --- many batches ----------------------------------------------------------------------------

  function Plus(x: Batch, y: Batch): Batch {
    Batch(x.binaries + y.binaries, x.functions + y.functions, x.lines + y.lines, x.rvas + y.rvas)
  }

  /** Everything the flushes sent, table by table, in order. */
  function Joined(bs: seq<Batch>): Batch {
    if bs == [] then Batch([], [], [], []) else Plus(Joined(bs[..|bs| - 1]), bs[|bs| - 1])
  }

  /** The function id after those already sent. */
  function NextId(bs: seq<Batch>, first: int): int { first + |Joined(bs).functions| }

  /** The flushes `make` gives for each piece, function ids running on from one to the next. */
  function BatchesBy(make: (seq<Placed>, int) -> Batch, done: seq<seq<Placed>>, first: int): seq<Batch> {
    if done == [] then []
    else
      var front := BatchesBy(make, done[..|done| - 1], first);
      front + [make(done[|done| - 1], NextId(front, first))]
  }

  function Making(withLines: bool): (seq<Placed>, int) -> Batch {
    (ps: seq<Placed>, first: int) => BatchOf(ps, first, withLines)
  }

  function Batches(done: seq<seq<Placed>>, first: int, withLines: bool): seq<Batch> {
    BatchesBy(Making(withLines), done, first)
  }

  /** Making two runs of binaries in one go, or one after the other with ids running on. */
  ghost predicate AddsAt(make: (seq<Placed>, int) -> Batch, a: seq<Placed>, b: seq<Placed>, first: int) {
    make(a + b, first) == Plus(make(a, first), make(b, first + |make(a, first).functions|))
  }

  ghost predicate Additive(make: (seq<Placed>, int) -> Batch) {
    && (forall first :: make([], first) == Batch([], [], [], []))
    && (forall a, b, first :: AddsAt(make, a, b, first))
  }

  lemma {:induction false} PiecesBy(make: (seq<Placed>, int) -> Batch, done: seq<seq<Placed>>, first: int)
    requires Additive(make)
    ensures Joined(BatchesBy(make, done, first)) == make(Concat(done), first)
  {
    if done != [] {
      var front, last := done[..|done| - 1], done[|done| - 1];
      PiecesBy(make, front, first);
      var sent := BatchesBy(make, front, first);
      JoinedOneMore(sent, make(last, NextId(sent, first)));
      assert AddsAt(make, Concat(front), last, first);
    }
  }

  lemma JoinedOneMore(bs: seq<Batch>, b: Batch)
    ensures Joined(bs + [b]) == Plus(Joined(bs), b)
  {
    assert (bs + [b])[..|bs|] == bs;
  }

  /** Flushing in pieces sends what one flush of everything would: no row dropped, none sent
      twice, function ids consecutive across flushes. */
  lemma PiecesAreTheWhole(done: seq<seq<Placed>>, first: int, withLines: bool)
    ensures Joined(Batches(done, first, withLines)) == BatchOf(Concat(done), first, withLines)
  {
    MakingIsAdditive(withLines);
    PiecesBy(Making(withLines), done, first);
  }

  lemma MakingIsAdditive(withLines: bool)
    ensures Additive(Making(withLines))
  {
    forall first ensures Making(withLines)([], first) == Batch([], [], [], []) { EmptyBatch(first, withLines); }
    forall a, b, first ensures AddsAt(Making(withLines), a, b, first) { MakingAdds(withLines, a, b, first); }
  }

  lemma MakingAdds(withLines: bool, a: seq<Placed>, b: seq<Placed>, first: int)
    ensures AddsAt(Making(withLines), a, b, first)
  {
    BatchConcat(a, b, first, withLines);
  }

  lemma EmptyBatch(first: int, withLines: bool)
    ensures BatchOf([], first, withLines) == Batch([], [], [], [])
  {
    assert EntriesOf([]) == [];
    assert RvaRows([], first) == [] && LineRows([], first) == [];
  }

  lemma EntriesConcat(a: seq<Placed>, b: seq<Placed>)
    ensures EntriesOf(a + b) == EntriesOf(a) + EntriesOf(b)
  {
    var x := seq(|a|, i requires 0 <= i < |a| => Tagged(a[i].id, a[i].kept));
    var y := seq(|b|, i requires 0 <= i < |b| => Tagged(b[i].id, b[i].kept));
    var z := seq(|a + b|, i requires 0 <= i < |a + b| => Tagged((a + b)[i].id, (a + b)[i].kept));
    ConcatAppend(x, y);
    assert z == x + y;
  }

  /** The batch of two runs of binaries is the two batches put together. */
  lemma BatchConcat(a: seq<Placed>, b: seq<Placed>, first: int, withLines: bool)
    ensures var x := BatchOf(a, first, withLines);
            BatchOf(a + b, first, withLines) == Plus(x, BatchOf(b, first + |x.functions|, withLines))
  {
    EntriesConcat(a, b);
    RowsConcat(EntriesOf(a), EntriesOf(b), first);
    BinaryRowsConcat(a, b);
  }

  lemma BinaryRowsConcat(a: seq<Placed>, b: seq<Placed>)
    ensures BinaryRows(a + b) == BinaryRows(a) + BinaryRows(b)
  {
  }

  lemma RowsConcat(a: seq<Entry>, b: seq<Entry>, first: int)
    ensures FunctionRows(a + b, first) == FunctionRows(a, first) + FunctionRows(b, first + |a|)
    ensures LineRows(a + b, first) == LineRows(a, first) + LineRows(b, first + |a|)
    ensures RvaRows(a + b, first) == RvaRows(a, first) + RvaRows(b, first + |a|)
  {
    LinePartsConcat(a, b, first);
    RvaPartsConcat(a, b, first);
  }

  lemma LinePartsConcat(a: seq<Entry>, b: seq<Entry>, first: int)
    ensures LineRows(a + b, first) == LineRows(a, first) + LineRows(b, first + |a|)
  {
    assert LineParts(a + b, first) == LineParts(a, first) + LineParts(b, first + |a|);
    ConcatAppend(LineParts(a, first), LineParts(b, first + |a|));
  }

  lemma RvaPartsConcat(a: seq<Entry>, b: seq<Entry>, first: int)
    ensures RvaRows(a + b, first) == RvaRows(a, first) + RvaRows(b, first + |a|)
  {
    assert RvaParts(a + b, first) == RvaParts(a, first) + RvaParts(b, first + |a|);
    ConcatAppend(RvaParts(a, first), RvaParts(b, first + |a|));
  }

  /** Every flush is closed under its references, its ids running on from the flushes before. */
  lemma {:induction false} FlushesAreClosed(done: seq<seq<Placed>>, first: int, withLines: bool, i: nat)
    requires i < |done| && AllProper(Concat(done))
    ensures var bs := Batches(done, first, withLines);
            |bs| == |done| && Closed(bs[i], NextId(bs[..i], first))
  {
    BatchCount(done, first, withLines);
    var n := |done| - 1;
    var front := Batches(done[..n], first, withLines);
    BatchCount(done[..n], first, withLines);
    assert Concat(done) == Concat(done[..n]) + done[n];
    if i == n {
      BatchIsClosed(done[n], NextId(front, first), withLines);
      assert Batches(done, first, withLines)[..n] == front;
    } else {
      FlushesAreClosed(done[..n], first, withLines, i);
      assert Batches(done, first, withLines)[..i] == front[..i];
    }
  }

  lemma {:induction false} BatchCount(done: seq<seq<Placed>>, first: int, withLines: bool)
    ensures |Batches(done, first, withLines)| == |done|
  {
    if done != [] { BatchCount(done[..|done| - 1], first, withLines); }
  }

  // --- what the rows of one function are ----------------------------------------------------------

  /** The rva rows of one function, as ranges, in order. */
  function RangesWith(rvas: seq<RvaRow>, id: int): seq<Range> {
    if rvas == [] then []
    else
      var last := rvas[|rvas| - 1];
      RangesWith(rvas[..|rvas| - 1], id) + if last.functionId == id then [Range(last.start, last.end)] else []
  }

  /** The line rows of one function, in order. */
  function LinesWith(lines: seq<SourceLine>, id: int): seq<SourceLine> {
    if lines == [] then []
    else LinesWith(lines[..|lines| - 1], id) + if lines[|lines| - 1].functionId == id then [lines[|lines| - 1]] else []
  }

  lemma {:induction false} RangesWithConcat(a: seq<RvaRow>, b: seq<RvaRow>, id: int)
    ensures RangesWith(a + b, id) == RangesWith(a, id) + RangesWith(b, id)
  {
    if b == [] {
      assert a + b == a;
    } else {
      RangesWithConcat(a, b[..|b| - 1], id);
      assert (a + b)[..|a + b| - 1] == a + b[..|b| - 1];
    }
  }

  lemma {:induction false} LinesWithConcat(a: seq<SourceLine>, b: seq<SourceLine>, id: int)
    ensures LinesWith(a + b, id) == LinesWith(a, id) + LinesWith(b, id)
  {
    if b == [] {
      assert a + b == a;
    } else {
      LinesWithConcat(a, b[..|b| - 1], id);
      assert (a + b)[..|a + b| - 1] == a + b[..|b| - 1];
    }
  }

  lemma {:induction false} OwnRanges(rs: seq<Range>, own: int, id: int)
    ensures RangesWith(RvasOf(rs, own), id) == if own == id then rs else []
  {
    if rs != [] {
      OwnRanges(rs[..|rs| - 1], own, id);
      assert RvasOf(rs, own)[..|rs| - 1] == RvasOf(rs[..|rs| - 1], own);
      assert rs == rs[..|rs| - 1] + [rs[|rs| - 1]];
    }
  }

  lemma {:induction false} OwnLines(ls: seq<LineInfo>, own: int, id: int)
    ensures LinesWith(LinesOf(ls, own), id) == if own == id then LinesOf(ls, own) else []
  {
    if ls != [] {
      OwnLines(ls[..|ls| - 1], own, id);
      assert LinesOf(ls, own)[..|ls| - 1] == LinesOf(ls[..|ls| - 1], own);
    }
  }

  lemma RangesAppended(rvas: seq<RvaRow>, rs: seq<Range>, own: int, id: int)
    ensures RangesWith(rvas + RvasOf(rs, own), id) == RangesWith(rvas, id) + if own == id then rs else []
  {
    RangesWithConcat(rvas, RvasOf(rs, own), id);
    OwnRanges(rs, own, id);
  }

  lemma LinesAppended(lines: seq<SourceLine>, ls: seq<LineInfo>, own: int, id: int)
    ensures LinesWith(lines + LinesOf(ls, own), id) == LinesWith(lines, id) + if own == id then LinesOf(ls, own) else []
  {
    LinesWithConcat(lines, LinesOf(ls, own), id);
    OwnLines(ls, own, id);
  }

  function RangesAt(es: seq<Entry>, n: int): seq<Range> { if 0 <= n < |es| then es[n].k.ranges else [] }

  function LinesAt(es: seq<Entry>, n: int): seq<LineInfo> { if 0 <= n < |es| then es[n].k.lines else [] }

  lemma NoRows(first: int, id: int)
    ensures RangesWith(RvaRows([], first), id) == [] && LinesWith(LineRows([], first), id) == []
  {
    assert RvaParts([], first) == [] && LineParts([], first) == [];
  }

  /** Among all rows of a run of entries, those with the id of one are its own. */
  lemma {:induction false} RowsOfEntry(es: seq<Entry>, first: int, id: int)
    ensures RangesWith(RvaRows(es, first), id) == RangesAt(es, id - first)
    ensures LinesWith(LineRows(es, first), id) == LinesOf(LinesAt(es, id - first), id)
  {
    if es == [] {
      NoRows(first, id);
    } else {
      var front, last := es[..|es| - 1], es[|es| - 1];
      RowsOfEntry(front, first, id);
      RangesOneMore(front, last, first, id);
      LinesOneMore(front, last, first, id);
      assert es == front + [last];
      assert id - first != |front| ==> RangesAt(es, id - first) == RangesAt(front, id - first);
      assert id - first != |front| ==> LinesAt(es, id - first) == LinesAt(front, id - first);
    }
  }

  lemma RangesOneMore(es: seq<Entry>, e: Entry, first: int, id: int)
    ensures RangesWith(RvaRows(es + [e], first), id) ==
            RangesWith(RvaRows(es, first), id) + if first + |es| == id then e.k.ranges else []
  {
    RangesAppended(RvaRows(es, first), e.k.ranges, first + |es|, id);
    RvaRowsOneMore(es, e, first);
  }

  lemma LinesOneMore(es: seq<Entry>, e: Entry, first: int, id: int)
    ensures LinesWith(LineRows(es + [e], first), id) ==
            LinesWith(LineRows(es, first), id) + if first + |es| == id then LinesOf(e.k.lines, id) else []
  {
    LinesAppended(LineRows(es, first), e.k.lines, first + |es|, id);
    LineRowsOneMore(es, e, first);
  }

  /** How many functions the first `i` binaries have. */
  function Offset(ps: seq<Placed>, i: nat): nat
    requires i <= |ps|
  {
    if i == 0 then 0 else Offset(ps, i - 1) + |ps[i - 1].kept|
  }

  lemma {:induction false} EntryAt(ps: seq<Placed>, i: nat, q: nat)
    requires i < |ps| && q < |ps[i].kept|
    ensures Offset(ps, i) + q < |EntriesOf(ps)|
    ensures EntriesOf(ps)[Offset(ps, i) + q] == Entry(ps[i].id, ps[i].kept[q])
  {
    var n := |ps| - 1;
    EntriesOneMore(ps[..n], ps[n]);
    assert ps == ps[..n] + [ps[n]];
    OffsetTotal(ps[..n]);
    OffsetFront(ps, n, if i < n then i else n);
    if i < n { EntryAt(ps[..n], i, q); }
  }

  lemma {:induction false} OffsetFront(ps: seq<Placed>, n: nat, i: nat)
    requires i <= n <= |ps|
    ensures Offset(ps[..n], i) == Offset(ps, i)
  {
    if i > 0 { OffsetFront(ps, n, i - 1); }
  }

  lemma {:induction false} OffsetTotal(ps: seq<Placed>)
    ensures Offset(ps, |ps|) == |EntriesOf(ps)|
  {
    if ps == [] {
      assert EntriesOf([]) == [];
    } else {
      var n := |ps| - 1;
      OffsetTotal(ps[..n]);
      OffsetFront(ps, n, n);
      EntriesOneMore(ps[..n], ps[n]);
      assert ps == ps[..n] + [ps[n]];
    }
  }

  /** The rows of a function, in a batch: its own, its ranges and its lines, field by field. */
  ghost predicate HasFunction(b: Batch, id: int, binaryId: int, k: Kept, withLines: bool) {
    && FunctionRow(id, binaryId, k.name) in b.functions
    && RangesWith(b.rvas, id) == k.ranges
    && (withLines ==>
          && |LinesWith(b.lines, id)| == |k.lines|
          && forall n :: 0 <= n < |k.lines| ==>
               var l, row := k.lines[n], LinesWith(b.lines, id)[n];
               && row.line == l.line && row.file == l.file && row.code == l.code && row.length == l.length
               && row.functionId == id && row.rva == if l.rva == "" then "" else "0x" + l.rva)
  }

  /** For the `q`-th function of the `i`-th binary of a batch: the function row at its place has the
      next id in line, its binary's id and its name; the rva rows with that id are its ranges, in
      order; with lines wanted the line rows with that id are its lines, in order; and the binary's
      row has its id and name. */
  lemma FunctionRowsExactly(ps: seq<Placed>, first: int, withLines: bool, i: nat, q: nat)
    requires i < |ps| && q < |ps[i].kept|
    ensures var b := BatchOf(ps, first, withLines); var n := Offset(ps, i) + q;
            && n < |b.functions| && b.functions[n] == FunctionRow(first + n, ps[i].id, ps[i].kept[q].name)
            && HasFunction(b, first + n, ps[i].id, ps[i].kept[q], withLines)
            && |b.binaries| == |ps| && b.binaries[i] == BinaryRow(ps[i].id, ps[i].name)
  {
    var es, n := EntriesOf(ps), Offset(ps, i) + q;
    EntryAt(ps, i, q);
    RowsOfEntry(es, first, first + n);
    assert FunctionRows(es, first)[n] in FunctionRows(es, first);
  }

  // --- what is kept of a function ------------------------------------------------------------------

  /** The non-empty ranges, in order. */
  function ProperOf(rs: seq<Range>): seq<Range> {
    if rs == [] then []
    else ProperOf(rs[..|rs| - 1]) + if rs[|rs| - 1].start < rs[|rs| - 1].end then [rs[|rs| - 1]] else []
  }

  lemma {:induction false} PrintedProper(rs: seq<Range>)
    ensures ReadRanges(Print(rs)) == Some(ProperOf(rs))
  {
    if rs != [] {
      var n := |rs| - 1;
      PrintedProper(rs[..n]);
      assert Print(rs)[..n] == Print(rs[..n]);
      RoundTrip(rs[n].start);
      RoundTrip(rs[n].end);
    }
  }

  /** A named function that is no section, extracted with these ranges, is kept with those that are
      not empty and with its numbered lines, unless no range is left; any other is not kept. */
  lemma ExtractedIsKept(f: FuncInfo, rs: seq<Range>)
    requires f.ranges == Print(rs)
    ensures KeptOne(f) ==
            if f.name == "" || f.name in SECTION_PSEUDO || ProperOf(rs) == [] then Some([])
            else Some([Kept(f.name, ProperOf(rs), Numbered(f.lines))])
  {
    PrintedProper(rs);
  }

  /** The numbered lines are those with a line number, in their order. */
  lemma {:induction false} NumberedExactly(ls: seq<LineInfo>)
    ensures forall l :: l in Numbered(ls) <==> l in ls && l.line != 0
    ensures forall a, b :: a + b == ls ==> Numbered(ls) == Numbered(a) + Numbered(b)
  {
    if ls != [] {
      NumberedExactly(ls[..|ls| - 1]);
      assert ls == ls[..|ls| - 1] + [ls[|ls| - 1]];
    }
    forall a, b | a + b == ls ensures Numbered(ls) == Numbered(a) + Numbered(b) { NumberedConcat(a, b); }
  }

  lemma {:induction false} NumberedConcat(a: seq<LineInfo>, b: seq<LineInfo>)
    ensures Numbered(a + b) == Numbered(a) + Numbered(b)
  {
    if b == [] {
      assert a + b == a;
    } else {
      NumberedConcat(a, b[..|b| - 1]);
      assert (a + b)[..|a + b| - 1] == a + b[..|b| - 1];
    }
  }
}
