/**
 The dataset writer's nested loops: ids, accumulators and flushes
 (backend/assemblage/dataset/construct.py, db_construct).
 */
module DatasetConstruct {
  import opened Wrappers
  import opened Rva
  import opened Seqs
  import opened DatasetStore
  import opened DatasetBatches

  /** One entry of a binary's info list: whether its name matches, and its functions. */
  datatype Info = Info(matches: bool, functions: seq<FuncInfo>)

  /** A binary file: which ids' paths are taken, whether moving it fails, whether it can be
      mapped, and the info list of its folder. */
  datatype Bin = Bin(name: string, taken: int -> bool, moveFails: bool, mapped: bool, infos: seq<Info>)

  /** A staged folder; one without readable metadata is dropped. */
  datatype Folder = Folder(usable: bool, bins: seq<Bin>)

  const PROBES := 10000
  const FLUSH_AT := 25

  // --- what the input asks for -----------------------------------------------------------------

  function FunctionsOf(infos: seq<Info>): seq<FuncInfo> {
    if infos == [] then []
    else FunctionsOf(infos[..|infos| - 1]) + if infos[|infos| - 1].matches then infos[|infos| - 1].functions else []
  }

  function KeptOf(bin: Bin): Option<seq<Kept>> {
    if bin.mapped then KeptIn(FunctionsOf(bin.infos)) else Some([])
  }

  /** A binary that was moved, with its functions, before it has an id. */
  datatype Movable = Movable(name: string, kept: seq<Kept>)

  function WantedOf(bins: seq<Bin>): seq<Movable> {
    if bins == [] then []
    else
      var last := bins[|bins| - 1];
      WantedOf(bins[..|bins| - 1]) +
      if last.moveFails || KeptOf(last).None? then [] else [Movable(last.name, KeptOf(last).value)]
  }

  predicate Malformed(bins: seq<Bin>) {
    exists i :: 0 <= i < |bins| && !bins[i].moveFails && KeptOf(bins[i]).None?
  }

  function BinsOf(folder: Folder): seq<Bin> { if folder.usable then folder.bins else [] }

  function UsableBins(folders: seq<Folder>): seq<Bin> {
    if folders == [] then [] else UsableBins(folders[..|folders| - 1]) + BinsOf(folders[|folders| - 1])
  }

  function WithoutIds(ps: seq<Placed>): seq<Movable> {
    seq(|ps|, i requires 0 <= i < |ps| => Movable(ps[i].name, ps[i].kept))
  }

  ghost predicate Ascending(ps: seq<Placed>) {
    forall i, j :: 0 <= i < j < |ps| ==> ps[i].id < ps[j].id
  }

  ghost predicate Within(ps: seq<Placed>, low: int, high: int) {
    forall p :: p in ps ==> low < p.id <= high
  }

  // --- lemmas about growing the last binary ------------------------------------------------------

  lemma WithNone(ps: seq<Placed>)
    requires ps != []
    ensures WithOne(ps, []) == ps
  {
    var p := ps[|ps| - 1];
    assert p.kept + [] == p.kept;
  }

  lemma WithBoth(ps: seq<Placed>, a: seq<Kept>, b: seq<Kept>)
    requires ps != []
    ensures WithOne(WithOne(ps, a), b) == WithOne(ps, a + b)
  {
    assert ps[|ps| - 1].kept + a + b == ps[|ps| - 1].kept + (a + b);
  }

  ghost predicate GoodIds(ps: seq<Placed>, low: int, high: int) {
    Ascending(ps) && Within(ps, low, high)
  }

  lemma WithOneKeepsIds(pre: seq<Placed>, ps: seq<Placed>, k: Kept, low: int, high: int)
    requires ps != [] && GoodIds(pre + ps, low, high) && AllProper(pre + ps) && Proper(k)
    ensures GoodIds(pre + WithOne(ps, [k]), low, high) && AllProper(pre + WithOne(ps, [k]))
  {
    var x, y := pre + ps, pre + WithOne(ps, [k]);
    assert |x| == |y|;
    forall i | 0 <= i < |y| ensures y[i].id == x[i].id && x[i] in x && forall k :: k in y[i].kept ==> Proper(k) {
      assert x[i] in x;
    }
  }

  lemma NextBinaryKeepsIds(ps: seq<Placed>, p: Placed, low: int, high: int)
    requires GoodIds(ps, low, high) && AllProper(ps) && low <= high < p.id && p.kept == []
    ensures GoodIds(ps + [p], low, p.id) && AllProper(ps + [p])
  {
    var all := ps + [p];
    assert forall i :: 0 <= i < |ps| ==> all[i] == ps[i] && ps[i] in ps;
  }

  lemma {:induction false} KeptInConcat(a: seq<FuncInfo>, b: seq<FuncInfo>)
    ensures KeptIn(a + b) ==
            if KeptIn(a).None? || KeptIn(b).None? then None else Some(KeptIn(a).value + KeptIn(b).value)
  {
    if b == [] {
      assert a + b == a;
      if KeptIn(a).Some? { assert KeptIn(a).value + [] == KeptIn(a).value; }
    } else {
      var n := |b| - 1;
      KeptInConcat(a, b[..n]);
      assert (a + b)[..|a + b| - 1] == a + b[..n];
      if KeptIn(a).Some? && KeptIn(b).Some? { Assoc(KeptIn(a).value, KeptIn(b[..n]).value, KeptOne(b[n]).value); }
    }
  }

  lemma KeptInStep(fs: seq<FuncInfo>, n: nat)
    requires n < |fs|
    ensures KeptIn(fs[..n + 1]) ==
            if KeptIn(fs[..n]).None? || KeptOne(fs[n]).None? then None else Some(KeptIn(fs[..n]).value + KeptOne(fs[n]).value)
  {
    assert fs[..n + 1][..n] == fs[..n];
  }

  /** A malformed address among the first functions is one among all. */
  lemma {:induction false} MalformedStays(fs: seq<FuncInfo>, n: nat)
    requires n <= |fs| && KeptIn(fs[..n]).None?
    ensures KeptIn(fs).None?
  {
    KeptInConcat(fs[..n], fs[n..]);
    assert fs == fs[..n] + fs[n..];
  }

  /** The rows of one more function, added to the accumulators. */
  lemma RowsAppend(b: Batch, ps: seq<Placed>, k: Kept, first: int, withLines: bool)
    requires b == BatchOf(ps, first, withLines) && ps != []
    ensures b.binaries != []
    ensures var id := first + |b.functions|;
            BatchOf(WithOne(ps, [k]), first, withLines) ==
            Batch(b.binaries, b.functions + [FunctionRow(id, b.binaries[|b.binaries| - 1].id, k.name)],
                  if withLines then b.lines + LinesOf(k.lines, id) else b.lines, b.rvas + RvasOf(k.ranges, id))
  {
    BatchWithOne(ps, k, first, withLines);
  }

  // --- the writer --------------------------------------------------------------------------------

  class Writer {
    const withLines: bool
    var binaryId: int
    var functionId: int
    var binaries: seq<BinaryRow>
    var functions: seq<FunctionRow>
    var lines: seq<SourceLine>
    var rvas: seq<RvaRow>
    var flushed: seq<Batch>

    ghost const firstBinary: int
    ghost const firstFunction: int
    ghost var cur: seq<Placed>
    ghost var done: seq<seq<Placed>>

    /** The accumulators are the batch of the binaries placed since the last flush. */
    ghost predicate Accumulated()
      reads this
    {
      && Batch(binaries, functions, lines, rvas) == BatchOf(cur, NextId(flushed, firstFunction), withLines)
      && functionId == NextId(flushed, firstFunction) + |functions|
    }

    ghost predicate Valid()
      reads this
    {
      && Accumulated() && firstBinary <= binaryId
      && GoodIds(Concat(done) + cur, firstBinary, binaryId) && AllProper(Concat(done) + cur)
      && flushed == BatchesBy(Making(withLines), done, firstFunction)
    }

    constructor (binaryId: int, functionId: int, withLines: bool)
      ensures Valid() && cur == [] && done == [] && flushed == []
      ensures firstBinary == binaryId && firstFunction == functionId && this.withLines == withLines
    {
      this.binaryId, this.functionId, this.withLines := binaryId, functionId, withLines;
      binaries, functions, lines, rvas, flushed := [], [], [], [], [];
      firstBinary, firstFunction, cur, done := binaryId, functionId, [], [];
      new;
      EmptyBatch(functionId, withLines);
    }

    /** One function: skipped, refused for a malformed address, or appended with its rows. */
    method AddFunction(f: FuncInfo) returns (ok: bool)
      requires Valid() && cur != []
      modifies this`functionId, this`functions, this`lines, this`rvas, this`cur
      ensures Valid()
      ensures ok <==> KeptOne(f).Some?
      ensures cur == if ok then WithOne(old(cur), KeptOne(f).value) else old(cur)
    {
      WithNone(cur);
      if f.name == "" || f.name in SECTION_PSEUDO { return true; }
      var blocks := ReadRanges(f.ranges);
      if blocks.None? { return false; }
      if blocks.value == [] { return true; }
      ReadRangesAreProper(f.ranges);
      Append(f, blocks.value);
      return true;
    }

    method Append(f: FuncInfo, blocks: seq<Range>)
      requires Valid() && cur != [] && Proper(Kept(f.name, blocks, Numbered(f.lines)))
      modifies this`functionId, this`functions, this`lines, this`rvas, this`cur
      ensures Valid()
      ensures cur == WithOne(old(cur), [Kept(f.name, blocks, Numbered(f.lines))])
    {
      ghost var k, first := Kept(f.name, blocks, Numbered(f.lines)), NextId(flushed, firstFunction);
      ghost var b, grown := Batch(binaries, functions, lines, rvas), WithOne(cur, [k]);
      RowsAppend(b, cur, k, first, withLines);
      WithOneKeepsIds(Concat(done), cur, k, firstBinary, binaryId);
      ghost var b' := BatchOf(grown, first, withLines);
      var bin := binaries[|binaries| - 1].id;
      rvas := rvas + RvasOf(blocks, functionId);
      functions := functions + [FunctionRow(functionId, bin, f.name)];
      if withLines { lines := lines + LinesOf(Numbered(f.lines), functionId); }
      functionId := functionId + 1;
      cur := grown;
      assert Batch(binaries, functions, lines, rvas) == b';
    }

    method AddFunctions(fs: seq<FuncInfo>) returns (ok: bool)
      requires Valid() && cur != []
      modifies this`functionId, this`functions, this`lines, this`rvas, this`cur
      ensures Valid() && cur != []
      ensures ok <==> KeptIn(fs).Some?
      ensures ok ==> cur == WithOne(old(cur), KeptIn(fs).value)
    {
      WithNone(cur);
      for n := 0 to |fs|
        invariant Valid() && cur != []
        invariant KeptIn(fs[..n]).Some? && cur == WithOne(old(cur), KeptIn(fs[..n]).value)
      {
        KeptInStep(fs, n);
        var did := AddFunction(fs[n]);
        if !did {
          MalformedStays(fs, n + 1);
          return false;
        }
        WithBoth(old(cur), KeptIn(fs[..n]).value, KeptOne(fs[n]).value);
      }
      assert fs[..|fs|] == fs;
      return true;
    }

    method AddInfos(bin: Bin) returns (ok: bool)
      requires Valid() && cur != []
      modifies this`functionId, this`functions, this`lines, this`rvas, this`cur
      ensures Valid() && cur != []
      ensures ok <==> KeptOf(bin).Some?
      ensures ok ==> cur == WithOne(old(cur), KeptOf(bin).value)
    {
      WithNone(cur);
      var infos := bin.infos;
      for n := 0 to |infos|
        invariant Valid() && cur != []
        invariant !bin.mapped ==> cur == old(cur)
        invariant bin.mapped ==> KeptIn(FunctionsOf(infos[..n])).Some? && cur == WithOne(old(cur), KeptIn(FunctionsOf(infos[..n])).value)
      {
        if !bin.mapped { continue; }
        InfosStep(infos, n);
        if !infos[n].matches { continue; }
        var did := AddFunctions(infos[n].functions);
        if !did {
          MalformedInfos(infos, n + 1);
          return false;
        }
        WithBoth(old(cur), KeptIn(FunctionsOf(infos[..n])).value, KeptIn(infos[n].functions).value);
      }
      assert infos[..|infos|] == infos;
      return true;
    }

    /** Moves on to the first id whose path is free, within the probing range. */
    method TakeId(bin: Bin)
      requires Valid()
      modifies this`binaryId
      ensures Valid() && forall p :: p in Concat(done) + cur ==> p.id < binaryId
      ensures old(binaryId) < binaryId <= old(binaryId) + PROBES
      ensures forall k :: old(binaryId) < k < binaryId ==> bin.taken(k)
      ensures bin.taken(binaryId) ==> binaryId == old(binaryId) + PROBES
    {
      var first := binaryId + 1;
      var id := first;
      while bin.taken(id) && id < first + PROBES - 1
        invariant first <= id < first + PROBES
        invariant forall k :: first <= k < id ==> bin.taken(k)
      {
        id := id + 1;
      }
      binaryId := id;
    }

    /** One binary: a fresh id, and unless the move fails, its row and those of its functions. */
    method AddBinary(bin: Bin) returns (ok: bool)
      requires Valid()
      modifies this`binaryId, this`functionId, this`binaries, this`functions, this`lines, this`rvas, this`cur
      ensures Valid()
      ensures old(binaryId) < binaryId <= old(binaryId) + PROBES
      ensures ok <==> bin.moveFails || KeptOf(bin).Some?
      ensures ok ==> cur == if bin.moveFails then old(cur) else old(cur) + [Placed(binaryId, bin.name, KeptOf(bin).value)]
    {
      TakeAndPlace(bin);
      if bin.moveFails { return true; }
      ok := AddInfos(bin);
      if ok { WithOnLast(old(cur), Placed(binaryId, bin.name, []), KeptOf(bin).value); }
    }

    method TakeAndPlace(bin: Bin)
      requires Valid()
      modifies this`binaryId, this`binaries, this`cur
      ensures Valid()
      ensures old(binaryId) < binaryId <= old(binaryId) + PROBES
      ensures cur == if bin.moveFails then old(cur) else old(cur) + [Placed(binaryId, bin.name, [])]
    {
      TakeId(bin);
      if !bin.moveFails { PlaceBinary(bin.name); }
    }

    /** Adds the row of a binary that was moved under the current id, which no row has. */
    method PlaceBinary(name: string)
      requires Valid() && firstBinary < binaryId && forall p :: p in Concat(done) + cur ==> p.id < binaryId
      modifies this`binaries, this`cur
      ensures Valid()
      ensures cur == old(cur) + [Placed(binaryId, name, [])]
    {
      ghost var p, first := Placed(binaryId, name, []), NextId(flushed, firstFunction);
      BatchWithBinary(cur, binaryId, name, first, withLines);
      NextBinaryKeepsIds(Concat(done) + cur, p, firstBinary, binaryId - 1);
      Assoc(Concat(done), cur, [p]);
      assert forall b :: b in binaries ==> b.id != binaryId by { RowsHaveIds(cur); OnlyPlaced(Concat(done), cur); }
      binaries := binaries + [BinaryRow(binaryId, name)];
      cur := cur + [p];
    }

    method AddFolder(bins: seq<Bin>) returns (ok: bool)
      requires Valid()
      modifies this`binaryId, this`functionId, this`binaries, this`functions, this`lines, this`rvas, this`cur
      ensures Valid()
      ensures ok <==> !Malformed(bins)
      ensures ok ==> Follows(old(cur), cur, bins)
    {
      for n := 0 to |bins|
        invariant Valid()
        invariant !Malformed(bins[..n]) && Follows(old(cur), cur, bins[..n])
      {
        ghost var before := cur;
        var did := AddBinary(bins[n]);
        WantedStep(bins, n);
        if !did { return false; }
        FollowsStep(old(cur), before, cur, bins, n, binaryId);
      }
      assert bins[..|bins|] == bins;
      return true;
    }

    /** Sends what has accumulated and starts afresh. */
    method Flush()
      requires Valid()
      modifies this`flushed, this`binaries, this`functions, this`lines, this`rvas, this`cur, this`done
      ensures Valid() && cur == [] && done == old(done) + [old(cur)]
      ensures flushed == old(flushed) + [Batch(old(binaries), old(functions), old(lines), old(rvas))]
      ensures binaries == [] && |old(binaries)| == |old(cur)|
    {
      ghost var batch, piece := Batch(binaries, functions, lines, rvas), cur;
      FlushStep(done, piece, flushed, batch, firstFunction, withLines);
      EmptyBatch(functionId, withLines);
      flushed := flushed + [Batch(binaries, functions, lines, rvas)];
      binaries, functions, lines, rvas := [], [], [], [];
      cur, done := [], done + [cur];
    }

    /** A flush once more than 25 binaries have accumulated. */
    method FlushIfMany()
      requires Valid() && AllLarge(flushed)
      modifies this`flushed, this`binaries, this`functions, this`lines, this`rvas, this`cur, this`done
      ensures Valid() && AllLarge(flushed) && |binaries| <= FLUSH_AT
      ensures Concat(done) + cur == Concat(old(done)) + old(cur)
    {
      if |binaries| > FLUSH_AT {
        ConcatOneMore(done, cur);
        Flush();
      }
    }

    /** One folder; nothing for one that is not usable. */
    method AddAndFlush(folder: Folder) returns (ok: bool)
      requires Valid() && AllLarge(flushed)
      modifies this
      ensures Valid() && AllLarge(flushed)
      ensures ok && (folder.usable || |old(binaries)| <= FLUSH_AT) ==> |binaries| <= FLUSH_AT
      ensures ok <==> !Malformed(BinsOf(folder))
      ensures ok ==> Follows(old(Concat(done) + cur), Concat(done) + cur, BinsOf(folder))
    {
      ghost var before := cur;
      if !folder.usable { return true; }
      ok := AddFolder(folder.bins);
      if ok {
        FollowsAfter(Concat(done), before, cur, folder.bins);
        FlushIfMany();
      }
    }

    /** The whole construction. It aborts exactly on a malformed address of a function it would
        keep; otherwise every movable binary of every usable folder, with all its functions, is
        sent exactly once and in order. */
    method Run(folders: seq<Folder>) returns (ok: bool)
      requires Valid() && cur == [] && done == [] && flushed == []
      modifies this
      ensures Valid()
      ensures |flushed| == |done|
      ensures forall i :: 0 <= i < |flushed| ==> Closed(flushed[i], NextId(flushed[..i], firstFunction))
      ensures ok <==> !Malformed(UsableBins(folders))
      ensures ok ==> cur == [] && Follows([], Concat(done), UsableBins(folders))
      ensures ok ==> |flushed| > 0 && AllLarge(flushed[..|flushed| - 1]) && |flushed[|flushed| - 1].binaries| <= FLUSH_AT
    {
      for n := 0 to |folders|
        invariant Valid() && AllLarge(flushed) && |binaries| <= FLUSH_AT
        invariant !Malformed(UsableBins(folders[..n])) && Follows([], Concat(done) + cur, UsableBins(folders[..n]))
      {
        ghost var before := Concat(done) + cur;
        var did := AddAndFlush(folders[n]);
        if !did {
          MalformedFolders(folders, n);
          FlushesClosed();
          return false;
        }
        FollowsFolder(before, Concat(done) + cur, folders, n);
      }
      assert folders[..|folders|] == folders;
      FinalFlush();
      FlushesClosed();
      return true;
    }

    /** Whatever was flushed is closed under its references, its function ids running on. */
    lemma FlushesClosed()
      requires Valid()
      ensures |flushed| == |done|
      ensures forall i :: 0 <= i < |flushed| ==> Closed(flushed[i], NextId(flushed[..i], firstFunction))
    {
      BatchCount(done, firstFunction, withLines);
      ProperFront(Concat(done), cur);
      forall i | 0 <= i < |flushed| ensures Closed(flushed[i], NextId(flushed[..i], firstFunction)) {
        FlushesAreClosed(done, firstFunction, withLines, i);
      }
    }

    method FinalFlush()
      requires Valid() && AllLarge(flushed)
      modifies this`flushed, this`binaries, this`functions, this`lines, this`rvas, this`cur, this`done
      ensures Valid() && cur == [] && |flushed| > 0 && AllLarge(flushed[..|flushed| - 1])
      ensures |flushed[|flushed| - 1].binaries| == |old(binaries)|
      ensures Concat(done) == Concat(old(done)) + old(cur)
    {
      ConcatOneMore(done, cur);
      Flush();
    }
  }

  lemma FollowsFolder(before: seq<Placed>, after: seq<Placed>, folders: seq<Folder>, n: nat)
    requires n < |folders| && !Malformed(UsableBins(folders[..n])) && !Malformed(BinsOf(folders[n]))
    requires Follows([], before, UsableBins(folders[..n])) && Follows(before, after, BinsOf(folders[n]))
    ensures Follows([], after, UsableBins(folders[..n + 1])) && !Malformed(UsableBins(folders[..n + 1]))
  {
    FolderStep(folders, n);
    Assoc(WithoutIds([]), WantedOf(UsableBins(folders[..n])), WantedOf(BinsOf(folders[n])));
  }

  ghost predicate AllLarge(bs: seq<Batch>) {
    forall i :: 0 <= i < |bs| ==> |bs[i].binaries| > FLUSH_AT
  }

  lemma FollowsAfter(sent: seq<Placed>, before: seq<Placed>, after: seq<Placed>, bins: seq<Bin>)
    requires Follows(before, after, bins)
    ensures Follows(sent + before, sent + after, bins)
  {
    WithoutIdsConcat(sent, before);
    WithoutIdsConcat(sent, after);
    Assoc(WithoutIds(sent), WithoutIds(before), WantedOf(bins));
  }

  lemma WithOnLast(ps: seq<Placed>, p: Placed, ks: seq<Kept>)
    requires p.kept == []
    ensures WithOne(ps + [p], ks) == ps + [p.(kept := ks)]
  {
    assert [] + ks == ks;
  }

  lemma RowsHaveIds(ps: seq<Placed>)
    ensures forall b :: b in BinaryRows(ps) ==> exists p :: p in ps && p.id == b.id
  {
    forall b | b in BinaryRows(ps) ensures exists p :: p in ps && p.id == b.id {
      var i :| 0 <= i < |ps| && BinaryRows(ps)[i] == b;
      assert ps[i] in ps;
    }
  }

  lemma OnlyPlaced(a: seq<Placed>, b: seq<Placed>)
    ensures forall p :: p in b ==> p in a + b
  {
  }

  /** `after` is `before` with the binaries these files ask for, ids aside. */
  ghost predicate Follows(before: seq<Placed>, after: seq<Placed>, bins: seq<Bin>) {
    WithoutIds(after) == WithoutIds(before) + WantedOf(bins)
  }

  lemma FollowsStep(start: seq<Placed>, before: seq<Placed>, after: seq<Placed>, bins: seq<Bin>, n: nat, id: int)
    requires n < |bins| && Follows(start, before, bins[..n])
    requires bins[n].moveFails || KeptOf(bins[n]).Some?
    requires after == if bins[n].moveFails then before else before + [Placed(id, bins[n].name, KeptOf(bins[n]).value)]
    ensures Follows(start, after, bins[..n + 1])
  {
    WantedStep(bins, n);
    if !bins[n].moveFails { WithoutIdsOneMore(before, after[|before|]); }
  }

  lemma WithoutIdsOneMore(ps: seq<Placed>, p: Placed)
    ensures WithoutIds(ps + [p]) == WithoutIds(ps) + [Movable(p.name, p.kept)]
  {
  }

  lemma WithoutIdsConcat(a: seq<Placed>, b: seq<Placed>)
    ensures WithoutIds(a + b) == WithoutIds(a) + WithoutIds(b)
  {
  }

  lemma WantedStep(bins: seq<Bin>, n: nat)
    requires n < |bins|
    ensures WantedOf(bins[..n + 1]) == WantedOf(bins[..n]) +
            if bins[n].moveFails || KeptOf(bins[n]).None? then [] else [Movable(bins[n].name, KeptOf(bins[n]).value)]
    ensures Malformed(bins[..n + 1]) <==> Malformed(bins[..n]) || (!bins[n].moveFails && KeptOf(bins[n]).None?)
    ensures Malformed(bins[..n + 1]) ==> Malformed(bins)
  {
    assert bins[..n + 1][..n] == bins[..n];
    assert forall i :: 0 <= i < n ==> bins[..n][i] == bins[i] && bins[..n + 1][i] == bins[i];
    assert bins[..n + 1][n] == bins[n];
  }

  lemma {:induction false} WantedConcat(a: seq<Bin>, b: seq<Bin>)
    ensures WantedOf(a + b) == WantedOf(a) + WantedOf(b)
    ensures Malformed(a + b) <==> Malformed(a) || Malformed(b)
  {
    MalformedConcat(a, b);
    if b == [] {
      assert a + b == a;
    } else {
      WantedConcat(a, b[..|b| - 1]);
      assert (a + b)[..|a + b| - 1] == a + b[..|b| - 1];
    }
  }

  lemma MalformedConcat(a: seq<Bin>, b: seq<Bin>)
    ensures Malformed(a + b) <==> Malformed(a) || Malformed(b)
  {
    assert forall i :: 0 <= i < |a| ==> (a + b)[i] == a[i];
    assert forall i :: 0 <= i < |b| ==> (a + b)[|a| + i] == b[i];
  }

  lemma FolderStep(folders: seq<Folder>, n: nat)
    requires n < |folders|
    ensures var before, after := UsableBins(folders[..n]), UsableBins(folders[..n + 1]); var own := BinsOf(folders[n]);
            && after == before + own && WantedOf(after) == WantedOf(before) + WantedOf(own)
            && (Malformed(after) <==> Malformed(before) || Malformed(own))
  {
    assert folders[..n + 1][..n] == folders[..n];
    WantedConcat(UsableBins(folders[..n]), BinsOf(folders[n]));
  }

  lemma {:induction false} MalformedFolders(folders: seq<Folder>, n: nat)
    requires n < |folders| && Malformed(BinsOf(folders[n]))
    ensures Malformed(UsableBins(folders))
  {
    var m := |folders| - 1;
    FolderStep(folders, m);
    assert folders[..m + 1] == folders;
    if n < m { MalformedFolders(folders[..m], n); }
  }

  lemma FlushStep(done: seq<seq<Placed>>, piece: seq<Placed>, flushed: seq<Batch>, batch: Batch, first: int, withLines: bool)
    requires flushed == BatchesBy(Making(withLines), done, first)
    requires batch == BatchOf(piece, NextId(flushed, first), withLines)
    ensures BatchesBy(Making(withLines), done + [piece], first) == flushed + [batch]
    ensures NextId(flushed + [batch], first) == NextId(flushed, first) + |batch.functions|
    ensures Concat(done + [piece]) + [] == Concat(done) + piece
    ensures |batch.binaries| == |piece|
  {
    assert (done + [piece])[..|done|] == done;
    JoinedOneMore(flushed, batch);
  }

  lemma InfosStep(infos: seq<Info>, n: nat)
    requires n < |infos|
    ensures var before, after := KeptIn(FunctionsOf(infos[..n])), KeptIn(FunctionsOf(infos[..n + 1]));
            var own := KeptIn(infos[n].functions);
            if !infos[n].matches then after == before
            else after == if before.None? || own.None? then None else Some(before.value + own.value)
  {
    assert infos[..n + 1][..n] == infos[..n];
    if infos[n].matches {
      KeptInConcat(FunctionsOf(infos[..n]), infos[n].functions);
    } else {
      assert FunctionsOf(infos[..n]) + [] == FunctionsOf(infos[..n]);
    }
  }

  lemma {:induction false} MalformedInfos(infos: seq<Info>, n: nat)
    requires n <= |infos| && KeptIn(FunctionsOf(infos[..n])).None?
    ensures KeptIn(FunctionsOf(infos)).None?
    decreases |infos| - n
  {
    if n == |infos| {
      assert infos[..n] == infos;
    } else {
      InfosStep(infos, n);
      MalformedInfos(infos, n + 1);
    }
  }

  lemma ProperFront(a: seq<Placed>, b: seq<Placed>)
    requires AllProper(a + b)
    ensures AllProper(a)
  {
    forall p | p in a ensures forall k :: k in p.kept ==> Proper(k) {
      assert p in a + b;
    }
  }

  // --- from the staged folders to the tables -------------------------------------------------------

  /** The tables after a batch, each as trying its rows one by one. */
  ghost predicate Stored(before: Rows, batch: Batch, c: Constraints, inc: Include, after: Rows) {
    && after.binaries == RowByRow(before.binaries, batch.binaries, c.binary)
    && after.functions == RowByRow(before.functions, Wanted(batch.functions, inc.functions), c.function_)
    && after.lines == RowByRow(before.lines, Wanted(batch.lines, inc.lines), c.line)
    && after.rvas == RowByRow(before.rvas, Wanted(batch.rvas, inc.rvas), c.rva)
  }

  /** What the four tables hold. */
  datatype Rows = Rows(binaries: seq<BinaryRow>, functions: seq<FunctionRow>, lines: seq<SourceLine>, rvas: seq<RvaRow>)

  function RowsOf(db: Tables): Rows
    reads db.binaries, db.functions, db.lines, db.rvas
  {
    Rows(db.binaries.rows, db.functions.rows, db.lines.rows, db.rvas.rows)
  }

  lemma StoredOneMore(r0: Rows, x: Batch, r1: Rows, y: Batch, r2: Rows, c: Constraints, inc: Include)
    requires Stored(r0, x, c, inc, r1) && Stored(r1, y, c, inc, r2)
    ensures Stored(r0, Plus(x, y), c, inc, r2)
  {
    RowByRowConcat(r0.binaries, x.binaries, y.binaries, c.binary);
    StoredTable(r0.functions, x.functions, y.functions, inc.functions, c.function_);
    StoredTable(r0.lines, x.lines, y.lines, inc.lines, c.line);
    StoredTable(r0.rvas, x.rvas, y.rvas, inc.rvas, c.rva);
  }

  lemma StoredTable<R>(table: seq<R>, x: seq<R>, y: seq<R>, include_: bool, accepts: (seq<R>, R) -> bool)
    ensures RowByRow(table, Wanted(x + y, include_), accepts) ==
            RowByRow(RowByRow(table, Wanted(x, include_), accepts), Wanted(y, include_), accepts)
  {
    RowByRowConcat(table, Wanted(x, include_), Wanted(y, include_), accepts);
  }

  /** The flushes go to the store one after the other; the tables end as if everything had been
      tried row by row at once. */
  method StoreAll(db: Tables, bs: seq<Batch>, c: Constraints, inc: Include, spurious: nat -> bool)
    modifies db.binaries, db.functions, db.lines, db.rvas, db.pdbs
    ensures Stored(old(RowsOf(db)), Joined(bs), c, inc, RowsOf(db))
  {
    ghost var r0 := RowsOf(db);
    for i := 0 to |bs|
      invariant Stored(r0, Joined(bs[..i]), c, inc, RowsOf(db))
    {
      ghost var r1 := RowsOf(db);
      BulkFlush(db, bs[i], [], c, inc, spurious);
      StoredOneMore(r0, Joined(bs[..i]), r1, bs[i], RowsOf(db), c, inc);
      JoinedOneMore(bs[..i], bs[i]);
      assert bs[..i + 1] == bs[..i] + [bs[i]];
    }
    assert bs[..|bs|] == bs;
  }

  /** Every id in the list is below `bound`. */
  predicate Below(ids: seq<int>, bound: int) { forall i :: 0 <= i < |ids| ==> ids[i] < bound }

  function BinaryIds(rows: seq<BinaryRow>): seq<int> { seq(|rows|, i requires 0 <= i < |rows| => rows[i].id) }

  function FunctionIds(rows: seq<FunctionRow>): seq<int> { seq(|rows|, i requires 0 <= i < |rows| => rows[i].id) }

  /** SELECT max(id) */
  method MaxId(ids: seq<int>) returns (m: Option<int>)
    ensures m.None? <==> ids == []
    ensures m.Some? ==> m.value in ids && Below(ids, m.value + 1)
  {
    if ids == [] { return None; }
    var best := ids[0];
    for i := 1 to |ids|
      invariant best in ids && forall k :: 0 <= k < i ==> ids[k] <= best
    {
      if ids[i] > best { best := ids[i]; }
    }
    m := Some(best);
  }

  const FIRST_BINARY := 1000
  const FIRST_FUNCTION := 1

  /** The ids to begin with: fixed ones for a new file, one past the largest in an existing one;
      None if such a file has an empty table, where the maximum is no number. */
  method FirstIds(db: Tables, exists_: bool) returns (ids: Option<(int, int)>)
    ensures ids.None? <==> exists_ && (db.binaries.rows == [] || db.functions.rows == [])
    ensures ids.Some? && exists_ ==> Below(BinaryIds(db.binaries.rows), ids.value.0) && Below(FunctionIds(db.functions.rows), ids.value.1)
    ensures ids.Some? && !exists_ ==> ids.value == (FIRST_BINARY, FIRST_FUNCTION)
  {
    if !exists_ { return Some((FIRST_BINARY, FIRST_FUNCTION)); }
    var binary := MaxId(BinaryIds(db.binaries.rows));
    var function_ := MaxId(FunctionIds(db.functions.rows));
    if binary.None? || function_.None? { return None; }
    ids := Some((binary.value + 1, function_.value + 1));
  }

  /** The whole construction, over a file that exists or a new one. It aborts exactly when an existing
      file has an empty table or an address is malformed. Otherwise the tables gain, row by row,
      the rows of every movable binary of every usable folder; the binaries' ids ascend and the
      functions' run on, all above those that were there. Rows of flushes sent before an abort
      stay. */
  method Construct(
    db: Tables, exists_: bool, folders: seq<Folder>, c: Constraints, inc: Include, spurious: nat -> bool)
    returns (ok: bool, ghost placed: seq<Placed>, ghost firstFunction: int)
    requires !exists_ ==> db.binaries.rows == [] && db.functions.rows == []
    modifies db.binaries, db.functions, db.lines, db.rvas, db.pdbs
    ensures ok <==> !(exists_ && (old(db.binaries.rows) == [] || old(db.functions.rows) == [])) && !Malformed(UsableBins(folders))
    ensures ok ==> Follows([], placed, UsableBins(folders))
    ensures Ascending(placed) && forall p :: p in placed ==> Below(BinaryIds(old(db.binaries.rows)), p.id)
    ensures placed != [] ==> Below(FunctionIds(old(db.functions.rows)), firstFunction)
    ensures Stored(old(RowsOf(db)), BatchOf(placed, firstFunction, inc.lines), c, inc, RowsOf(db))
  {
    var ids := FirstIds(db, exists_);
    placed, firstFunction := [], FIRST_FUNCTION;
    if ids.None? {
      EmptyBatch(firstFunction, inc.lines);
      return false, placed, firstFunction;
    }
    var w := new Writer(ids.value.0, ids.value.1, inc.lines);
    ok := w.Run(folders);
    placed, firstFunction := Concat(w.done), ids.value.1;
    PiecesAreTheWhole(w.done, ids.value.1, inc.lines);
    IdsOfFront(placed, w.cur, ids.value.0, w.binaryId);
    StoreAll(db, w.flushed, c, inc, spurious);
  }

  /** So no id of a new row is in use: neither a binary's nor a function's. */
  lemma NewIdsAreFresh(rows: Rows, placed: seq<Placed>, firstFunction: int, withLines: bool)
    requires forall p :: p in placed ==> Below(BinaryIds(rows.binaries), p.id)
    requires placed != [] ==> Below(FunctionIds(rows.functions), firstFunction)
    ensures var b := BatchOf(placed, firstFunction, withLines);
            && (forall x, y :: x in rows.binaries && y in b.binaries ==> x.id < y.id)
            && (forall x, y :: x in rows.functions && y in b.functions ==> x.id < y.id)
  {
    var b := BatchOf(placed, firstFunction, withLines);
    forall x, y | x in rows.binaries && y in b.binaries ensures x.id < y.id {
      var i :| 0 <= i < |rows.binaries| && rows.binaries[i] == x;
      var n :| 0 <= n < |placed| && BinaryRows(placed)[n] == y;
      assert placed[n] in placed && BinaryIds(rows.binaries)[i] == x.id;
    }
    forall x, y | x in rows.functions && y in b.functions ensures x.id < y.id {
      var i :| 0 <= i < |rows.functions| && rows.functions[i] == x;
      if placed == [] { EmptyBatch(firstFunction, withLines); }
      assert FunctionIds(rows.functions)[i] == x.id;
    }
  }

  lemma IdsOfFront(a: seq<Placed>, b: seq<Placed>, low: int, high: int)
    requires GoodIds(a + b, low, high)
    ensures GoodIds(a, low, high)
  {
    assert forall i :: 0 <= i < |a| ==> (a + b)[i] == a[i] && a[i] in a + b;
  }

  // --- from an extracted function to its rows ------------------------------------------------------

  /** The functions of an info list are those of its matching entries. */
  lemma {:induction false} FunctionsExactly(infos: seq<Info>, f: FuncInfo)
    ensures f in FunctionsOf(infos) <==> exists z :: 0 <= z < |infos| && infos[z].matches && f in infos[z].functions
  {
    if infos != [] {
      FunctionsExactly(infos[..|infos| - 1], f);
      assert forall z :: 0 <= z < |infos| - 1 ==> infos[..|infos| - 1][z] == infos[z];
    }
  }

  /** What is kept is what one function or another is kept as. */
  lemma {:induction false} KeptExactly(fs: seq<FuncInfo>, k: Kept)
    requires KeptIn(fs).Some?
    ensures k in KeptIn(fs).value <==> exists w :: 0 <= w < |fs| && KeptOne(fs[w]).Some? && k in KeptOne(fs[w]).value
  {
    if fs != [] {
      KeptExactly(fs[..|fs| - 1], k);
      assert forall w :: 0 <= w < |fs| - 1 ==> fs[..|fs| - 1][w] == fs[w];
    }
  }

  /** The binaries looked at are those of usable folders. */
  lemma {:induction false} UsableExactly(folders: seq<Folder>, b: Bin)
    ensures b in UsableBins(folders) <==> exists x :: 0 <= x < |folders| && folders[x].usable && b in folders[x].bins
  {
    if folders != [] {
      UsableExactly(folders[..|folders| - 1], b);
      assert forall x :: 0 <= x < |folders| - 1 ==> folders[..|folders| - 1][x] == folders[x];
    }
  }

  /** The binaries placed are those whose move does not fail, each with its name and functions. */
  lemma {:induction false} WantedExactly(bins: seq<Bin>, m: Movable)
    ensures m in WantedOf(bins) <==>
            exists b :: b in bins && !b.moveFails && KeptOf(b).Some? && m == Movable(b.name, KeptOf(b).value)
  {
    if bins != [] {
      WantedExactly(bins[..|bins| - 1], m);
      assert bins == bins[..|bins| - 1] + [bins[|bins| - 1]];
    }
  }

  /** A binary placed for one of these files. */
  ghost predicate PlacedFor(placed: seq<Placed>, i: int, b: Bin) {
    0 <= i < |placed| && !b.moveFails && KeptOf(b).Some? && placed[i].name == b.name && placed[i].kept == KeptOf(b).value
  }

  ghost predicate IsPlaced(placed: seq<Placed>, b: Bin) { exists i :: PlacedFor(placed, i, b) }

  /** Every binary whose move does not fail is placed, if its functions are well formed. */
  lemma BinIsPlaced(placed: seq<Placed>, bins: seq<Bin>, b: Bin)
    requires Follows([], placed, bins) && b in bins && !b.moveFails && KeptOf(b).Some?
    ensures IsPlaced(placed, b)
  {
    var m := Movable(b.name, KeptOf(b).value);
    WantedExactly(bins, m);
    assert WithoutIds(placed) == WantedOf(bins);
    var i :| 0 <= i < |placed| && WithoutIds(placed)[i] == m;
    assert PlacedFor(placed, i, b);
  }

  /** And what is placed is such a binary. */
  lemma PlacedIsBin(placed: seq<Placed>, bins: seq<Bin>, i: nat) returns (b: Bin)
    requires Follows([], placed, bins) && i < |placed|
    ensures b in bins && PlacedFor(placed, i, b)
  {
    var m := WithoutIds(placed)[i];
    assert WithoutIds(placed) == WantedOf(bins);
    assert m in WantedOf(bins);
    WantedExactly(bins, m);
    b :| b in bins && !b.moveFails && KeptOf(b).Some? && m == Movable(b.name, KeptOf(b).value);
  }

  /** The offered rows of one function of one binary file. */
  ghost predicate Offers(rows: Batch, b: Bin, f: FuncInfo, rs: seq<Range>, withLines: bool) {
    exists id, binaryId ::
      BinaryRow(binaryId, b.name) in rows.binaries
      && HasFunction(rows, id, binaryId, Kept(f.name, ProperOf(rs), Numbered(f.lines)), withLines)
  }

  /** Whatever a placed binary keeps is offered. */
  lemma KeptIsOffered(placed: seq<Placed>, b: Bin, f: FuncInfo, rs: seq<Range>, first: int, withLines: bool)
    requires IsPlaced(placed, b) && KeptOf(b).Some? && Kept(f.name, ProperOf(rs), Numbered(f.lines)) in KeptOf(b).value
    ensures Offers(BatchOf(placed, first, withLines), b, f, rs, withLines)
  {
    var k, rows := Kept(f.name, ProperOf(rs), Numbered(f.lines)), BatchOf(placed, first, withLines);
    var i :| PlacedFor(placed, i, b);
    var q :| 0 <= q < |placed[i].kept| && placed[i].kept[q] == k;
    FunctionRowsExactly(placed, first, withLines, i, q);
    assert rows.binaries[i] in rows.binaries;
    assert HasFunction(rows, first + Offset(placed, i) + q, placed[i].id, k, withLines);
  }

  /** A function of a matching entry of a binary that is moved and mapped in a usable folder, named
      and no section, extracted with ranges `rs` of which some are not empty, reaches the offered
      rows: a function row with its name and its binary's id, rva rows that are its non-empty ranges
      and no others, in order, and, if wanted, its numbered lines. */
  lemma ExtractedReachesRows(
    folders: seq<Folder>, x: nat, b: Bin, z: nat, f: FuncInfo, rs: seq<Range>, placed: seq<Placed>, first: int, withLines: bool)
    requires Follows([], placed, UsableBins(folders)) && !Malformed(UsableBins(folders))
    requires x < |folders| && folders[x].usable && b in folders[x].bins && !b.moveFails && b.mapped
    requires z < |b.infos| && b.infos[z].matches && f in b.infos[z].functions
    requires f.name != "" && f.name !in SECTION_PSEUDO && f.ranges == Print(rs) && ProperOf(rs) != []
    ensures Offers(BatchOf(placed, first, withLines), b, f, rs, withLines)
  {
    UsableExactly(folders, b);
    WellFormedBin(UsableBins(folders), b);
    FunctionsExactly(b.infos, f);
    KeptFromFunction(b, f, rs);
    BinIsPlaced(placed, UsableBins(folders), b);
    KeptIsOffered(placed, b, f, rs, first, withLines);
  }

  lemma WellFormedBin(bins: seq<Bin>, b: Bin)
    requires !Malformed(bins) && b in bins && !b.moveFails
    ensures KeptOf(b).Some?
  {
    var i :| 0 <= i < |bins| && bins[i] == b;
  }

  lemma KeptFromFunction(b: Bin, f: FuncInfo, rs: seq<Range>)
    requires b.mapped && KeptOf(b).Some? && f in FunctionsOf(b.infos)
    requires f.name != "" && f.name !in SECTION_PSEUDO && f.ranges == Print(rs) && ProperOf(rs) != []
    ensures Kept(f.name, ProperOf(rs), Numbered(f.lines)) in KeptOf(b).value
  {
    var k := Kept(f.name, ProperOf(rs), Numbered(f.lines));
    ExtractedIsKept(f, rs);
    KeptExactly(FunctionsOf(b.infos), k);
    var w :| 0 <= w < |FunctionsOf(b.infos)| && FunctionsOf(b.infos)[w] == f;
    assert k in KeptOne(FunctionsOf(b.infos)[w]).value;
  }

  /** A function of a matching entry of a binary that was moved, mapped and in a usable folder. */
  ghost predicate IsExtracted(folders: seq<Folder>, name: string, b: Bin, f: FuncInfo) {
    && (exists x :: 0 <= x < |folders| && folders[x].usable && b in folders[x].bins)
    && !b.moveFails && b.mapped && b.name == name
    && (exists z :: 0 <= z < |b.infos| && b.infos[z].matches && f in b.infos[z].functions)
  }

  lemma KeptHasFunction(fs: seq<FuncInfo>, k: Kept) returns (f: FuncInfo)
    requires KeptIn(fs).Some? && k in KeptIn(fs).value
    ensures f in fs && KeptOne(f).Some? && k in KeptOne(f).value
  {
    KeptExactly(fs, k);
    var w :| 0 <= w < |fs| && KeptOne(fs[w]).Some? && k in KeptOne(fs[w]).value;
    f := fs[w];
  }

  /** And no function row comes from anywhere else: each is what such a function is kept as. */
  lemma RowsComeFromFunctions(folders: seq<Folder>, placed: seq<Placed>, i: nat, q: nat) returns (b: Bin, f: FuncInfo)
    requires Follows([], placed, UsableBins(folders)) && i < |placed| && q < |placed[i].kept|
    ensures IsExtracted(folders, placed[i].name, b, f)
    ensures KeptOne(f).Some? && placed[i].kept[q] in KeptOne(f).value
  {
    b := PlacedIsBin(placed, UsableBins(folders), i);
    UsableExactly(folders, b);
    f := KeptHasFunction(FunctionsOf(b.infos), placed[i].kept[q]);
    FunctionsExactly(b.infos, f);
  }
}
