/**
 Builder replicas that share a claim directory and a progress file
 (deephistory/deephistory_builder.py).
 */
module DeepHistory {

  datatype Progress = Progress(completed: seq<string>, failed: seq<string>)

  const NOTHING := Progress([], [])

  /** Listed as completed (`ok`) or failed. */
  predicate Lists(p: Progress, key: string, ok: bool) {
    if ok then key in p.completed else key in p.failed
  }

  predicate ListsAny(p: Progress, key: string) { key in p.completed || key in p.failed }

  function Append(p: Progress, key: string, ok: bool): Progress {
    if ok then p.(completed := p.completed + [key]) else p.(failed := p.failed + [key])
  }

  ghost predicate Distinct(s: seq<string>) { forall i, j :: 0 <= i < j < |s| ==> s[i] != s[j] }

  /** No key twice across both lists. */
  ghost predicate NoneTwice(p: Progress) {
    Distinct(p.completed) && Distinct(p.failed) && forall k :: k in p.completed ==> k !in p.failed
  }

  lemma AppendKeepsNoneTwice(p: Progress, key: string, ok: bool)
    requires NoneTwice(p) && !ListsAny(p, key)
    ensures NoneTwice(Append(p, key, ok))
  {
  }

  /** key.replace("/", "_") */
  function Path(key: string): (r: string)
    ensures |r| == |key|
  {
    seq(|key|, i requires 0 <= i < |key| => if key[i] == '/' then '_' else key[i])
  }

  /** Two keys share a claim exactly when they differ only in slashes against underscores. */
  lemma PathsEqualExactly(a: string, b: string)
    ensures Path(a) == Path(b) <==>
            |a| == |b| && forall i :: 0 <= i < |a| ==> a[i] == b[i] || (a[i] in "/_" && b[i] in "/_")
  {
    if Path(a) == Path(b) {
      forall i | 0 <= i < |a| ensures a[i] == b[i] || (a[i] in "/_" && b[i] in "/_") {
        assert Path(a)[i] == Path(b)[i];
      }
    }
  }

  // --- replicas ------------------------------------------------------------------------------

  /** Where a replica stands with the key it is at. */
  datatype Phase =
    | Next(i: nat)
    | Checked(i: nat)
    | Claimed(i: nat)
    | Building(i: nat)
    | Built(i: nat, ok: bool)
    | Merging(i: nat, ok: bool, loaded: Progress)

  datatype Event = Start(key: string) | Ended(key: string, ok: bool)

  /** `saved` remembers every entry a replica ever wrote. */
  datatype Sys = Sys(phases: map<nat, Phase>, claims: set<string>, file: Progress, saved: set<(string, bool)>, log: seq<Event>)

  const START := Sys(map[], {}, NOTHING, {}, [])

  /** A load that fails gives the empty progress. A build that raises is a restart. */
  datatype Action =
    | Check(r: nat, fails: bool)
    | Claim(r: nat)
    | Begin(r: nat)
    | Finish(r: nat, ok: bool)
    | Reload(r: nat, fails: bool)
    | Save(r: nat)
    | Restart(r: nat)

  function Loaded(s: Sys, fails: bool): Progress { if fails then NOTHING else s.file }

  predicate Enabled(keys: seq<string>, s: Sys, a: Action) {
    if a.Restart? then true
    else
      a.r in s.phases && s.phases[a.r].i < |keys| &&
      match a
      case Check(r, _) => s.phases[r].Next?
      case Claim(r) => s.phases[r].Checked?
      case Begin(r) => s.phases[r].Claimed?
      case Finish(r, _) => s.phases[r].Building?
      case Reload(r, _) => s.phases[r].Built?
      case Save(r) => s.phases[r].Merging?
      case Restart(_) => true
  }

  function Moved(keys: seq<string>, s: Sys, a: Action): Phase
    requires Enabled(keys, s, a)
  {
    if a.Restart? then Next(0)
    else
      var p := s.phases[a.r];
      var key := keys[p.i];
      match a
      case Check(_, fails) => if ListsAny(Loaded(s, fails), key) then Next(p.i + 1) else Checked(p.i)
      case Claim(_) => if Path(key) in s.claims then Next(p.i + 1) else Claimed(p.i)
      case Begin(_) => Building(p.i)
      case Finish(_, ok) => Built(p.i, ok)
      case Reload(_, fails) => Merging(p.i, p.ok, Loaded(s, fails))
      case _ => Next(p.i + 1)
  }

  function Apply(keys: seq<string>, s: Sys, a: Action): Sys
    requires Enabled(keys, s, a)
  {
    var s' := s.(phases := s.phases[a.r := Moved(keys, s, a)]);
    if a.Restart? then s'
    else
      var p := s.phases[a.r];
      var key := keys[p.i];
      match a
      case Claim(_) => s'.(claims := s.claims + {Path(key)})
      case Begin(_) => s'.(log := s.log + [Start(key)])
      case Finish(_, ok) => s'.(log := s.log + [Ended(key, ok)])
      case Save(_) => s'.(file := Append(p.loaded, key, p.ok), saved := s.saved + {(key, p.ok)})
      case _ => s'
  }

  function Step(keys: seq<string>, s: Sys, a: Action): Sys {
    if Enabled(keys, s, a) then Apply(keys, s, a) else s
  }

  function Exec(keys: seq<string>, acts: seq<Action>): Sys {
    if acts == [] then START else Step(keys, Exec(keys, acts[..|acts| - 1]), acts[|acts| - 1])
  }

  // --- the invariant -------------------------------------------------------------------------

  predicate HasClaim(p: Phase) { p.Claimed? || p.Building? || p.Built? || p.Merging? }

  predicate WasSaved(s: Sys, key: string) { (key, true) in s.saved || (key, false) in s.saved }

  /** A progress that holds only saved entries. */
  ghost predicate FromSaved(s: Sys, p: Progress) {
    NoneTwice(p) && forall k, ok :: Lists(p, k, ok) ==> (k, ok) in s.saved
  }

  /** What holds of a replica that has a claim. */
  ghost predicate ReplicaOk(keys: seq<string>, s: Sys, r: nat)
    requires r in s.phases
  {
    var p := s.phases[r];
    HasClaim(p) ==>
      && p.i < |keys| && Path(keys[p.i]) in s.claims && !WasSaved(s, keys[p.i])
      && (p.Claimed? ==> NotStarted(s.log, Path(keys[p.i])))
      && (p.Built? || p.Merging? ==> Ended(keys[p.i], p.ok) in s.log)
      && (p.Merging? ==> FromSaved(s, p.loaded))
  }

  ghost predicate NotStarted(log: seq<Event>, path: string) {
    forall e :: e in log && e.Start? ==> Path(e.key) != path
  }

  /** Claims are not shared. */
  ghost predicate Apart(keys: seq<string>, s: Sys, r: nat, r': nat)
    requires r in s.phases && r' in s.phases
  {
    var p, p' := s.phases[r], s.phases[r'];
    r != r' && HasClaim(p) && HasClaim(p') ==> p.i < |keys| && p'.i < |keys| && Path(keys[p.i]) != Path(keys[p'.i])
  }

  ghost predicate LogOk(s: Sys) {
    && (forall i, j :: 0 <= i < j < |s.log| && s.log[i].Start? && s.log[j].Start? ==> Path(s.log[i].key) != Path(s.log[j].key))
    && (forall e :: e in s.log && e.Start? ==> Path(e.key) in s.claims)
  }

  ghost predicate SavedOk(s: Sys) {
    forall k, ok :: (k, ok) in s.saved ==> Path(k) in s.claims && Ended(k, ok) in s.log
  }

  ghost predicate Inv(keys: seq<string>, s: Sys) {
    && (forall r :: r in s.phases ==> ReplicaOk(keys, s, r))
    && (forall r, r' :: r in s.phases && r' in s.phases ==> Apart(keys, s, r, r'))
    && LogOk(s) && SavedOk(s) && FromSaved(s, s.file)
  }

  lemma ReplicaKept(keys: seq<string>, s: Sys, a: Action, r: nat)
    requires Inv(keys, s) && Enabled(keys, s, a) && r in Apply(keys, s, a).phases
    ensures ReplicaOk(keys, Apply(keys, s, a), r)
  {
    if r in s.phases {
      assert ReplicaOk(keys, s, r);
      if a.r in s.phases {
        assert ReplicaOk(keys, s, a.r);
        assert Apart(keys, s, r, a.r);
      }
    }
  }

  lemma ApartKept(keys: seq<string>, s: Sys, a: Action, r: nat, r': nat)
    requires Inv(keys, s) && Enabled(keys, s, a) && r in Apply(keys, s, a).phases && r' in Apply(keys, s, a).phases
    ensures Apart(keys, Apply(keys, s, a), r, r')
  {
    if r in s.phases && r' in s.phases {
      assert ReplicaOk(keys, s, r) && ReplicaOk(keys, s, r') && Apart(keys, s, r, r');
    }
  }

  lemma LogKept(keys: seq<string>, s: Sys, a: Action)
    requires Inv(keys, s) && Enabled(keys, s, a)
    ensures LogOk(Apply(keys, s, a)) && SavedOk(Apply(keys, s, a))
  {
    if a.r in s.phases { assert ReplicaOk(keys, s, a.r); }
  }

  lemma UnsavedIsUnlisted(s: Sys, p: Progress, key: string)
    requires FromSaved(s, p) && !WasSaved(s, key)
    ensures !ListsAny(p, key)
  {
    assert !Lists(p, key, true) && !Lists(p, key, false);
  }

  lemma FileKept(keys: seq<string>, s: Sys, a: Action)
    requires Inv(keys, s) && Enabled(keys, s, a)
    ensures FromSaved(Apply(keys, s, a), Apply(keys, s, a).file)
  {
    if a.Save? {
      var p := s.phases[a.r];
      assert ReplicaOk(keys, s, a.r);
      UnsavedIsUnlisted(s, p.loaded, keys[p.i]);
      AppendKeepsNoneTwice(p.loaded, keys[p.i], p.ok);
    }
  }

  lemma {:induction false} ExecInv(keys: seq<string>, acts: seq<Action>)
    ensures Inv(keys, Exec(keys, acts))
  {
    if acts != [] {
      var s, a := Exec(keys, acts[..|acts| - 1]), acts[|acts| - 1];
      ExecInv(keys, acts[..|acts| - 1]);
      if Enabled(keys, s, a) {
        var s' := Apply(keys, s, a);
        forall r | r in s'.phases ensures ReplicaOk(keys, s', r) { ReplicaKept(keys, s, a, r); }
        forall r, r' | r in s'.phases && r' in s'.phases ensures Apart(keys, s', r, r') { ApartKept(keys, s, a, r, r'); }
        LogKept(keys, s, a);
        FileKept(keys, s, a);
      }
    }
  }

  // --- what it gives --------------------------------------------------------------------------

  /** Over every interleaving with restarts, a claim path is built at most once: two starts of
      keys with one path are the same start. */
  lemma BuiltAtMostOnce(keys: seq<string>, acts: seq<Action>, i: nat, j: nat)
    requires i < |Exec(keys, acts).log| && j < |Exec(keys, acts).log|
    requires var log := Exec(keys, acts).log; log[i].Start? && log[j].Start? && Path(log[i].key) == Path(log[j].key)
    ensures i == j
  {
    ExecInv(keys, acts);
  }

  /** The shared file lists only keys whose build ended that way, and no key twice. */
  lemma FileListsFinished(keys: seq<string>, acts: seq<Action>)
    ensures NoneTwice(Exec(keys, acts).file)
    ensures forall k, ok :: Lists(Exec(keys, acts).file, k, ok) ==> Ended(k, ok) in Exec(keys, acts).log
  {
    ExecInv(keys, acts);
  }

  // --- when a save drops an entry --------------------------------------------------------------

  ghost predicate KeepsAll(p: Progress, p': Progress) {
    forall k, ok :: Lists(p, k, ok) ==> Lists(p', k, ok)
  }

  /** The `m`-th action of the run saves. */
  ghost predicate SavesAt(keys: seq<string>, acts: seq<Action>, m: nat) {
    m < |acts| && acts[m].Save? && Enabled(keys, Exec(keys, acts[..m]), acts[m])
  }

  ghost predicate SavesBetween(keys: seq<string>, acts: seq<Action>, n: nat, m: nat) {
    exists j: nat :: n < j < m && SavesAt(keys, acts, j)
  }

  /** Replica `r` re-reads the progress as the `n`-th action and has not moved since. */
  ghost predicate ReloadedAt(keys: seq<string>, acts: seq<Action>, n: nat, r: nat, fails: bool) {
    && n < |acts| && acts[n] == Reload(r, fails) && Enabled(keys, Exec(keys, acts[..n]), acts[n])
    && (forall m: nat :: n < m < |acts| ==> acts[m].r != r)
  }

  lemma ExecStep(keys: seq<string>, acts: seq<Action>, m: nat)
    requires m < |acts|
    ensures Exec(keys, acts[..m + 1]) == Step(keys, Exec(keys, acts[..m]), acts[m])
  {
    assert acts[..m + 1][..m] == acts[..m];
  }

  /** What the others do between a re-read and the save that follows it. */
  ghost predicate Since(s0: Sys, s: Sys, r: nat, fails: bool, saves: bool) {
    && r in s0.phases && s0.phases[r].Built?
    && r in s.phases && s.phases[r] == Merging(s0.phases[r].i, s0.phases[r].ok, Loaded(s0, fails))
    && s0.saved <= s.saved
    && (if saves then exists k, ok :: Lists(s.file, k, ok) && !WasSaved(s0, k) else s.file == s0.file)
  }

  lemma SinceStep(keys: seq<string>, s0: Sys, s: Sys, r: nat, fails: bool, saves: bool, a: Action)
    requires Inv(keys, s) && Since(s0, s, r, fails, saves) && a.r != r
    ensures Since(s0, Step(keys, s, a), r, fails, saves || (a.Save? && Enabled(keys, s, a)))
  {
    if a.Save? && Enabled(keys, s, a) {
      var p := s.phases[a.r];
      assert ReplicaOk(keys, s, a.r);
      assert Lists(Step(keys, s, a).file, keys[p.i], p.ok) && !WasSaved(s0, keys[p.i]);
    }
  }

  lemma {:induction false} SinceReload(keys: seq<string>, acts: seq<Action>, n: nat, r: nat, fails: bool, m: nat)
    requires ReloadedAt(keys, acts, n, r, fails) && n < m <= |acts|
    ensures Since(Exec(keys, acts[..n]), Exec(keys, acts[..m]), r, fails, SavesBetween(keys, acts, n, m))
  {
    ExecStep(keys, acts, m - 1);
    if m > n + 1 {
      SinceReload(keys, acts, n, r, fails, m - 1);
      ExecInv(keys, acts[..m - 1]);
      SinceStep(keys, Exec(keys, acts[..n]), Exec(keys, acts[..m - 1]), r, fails, SavesBetween(keys, acts, n, m - 1), acts[m - 1]);
      assert SavesBetween(keys, acts, n, m) <==> SavesBetween(keys, acts, n, m - 1) || SavesAt(keys, acts, m - 1);
    } else {
      assert !SavesBetween(keys, acts, n, m);
    }
  }

  /** A save keeps every entry listed before it exactly when no other replica saved since the
      re-read it rests on, and that re-read did not fail on a file that lists something. */
  lemma SaveKeepsExactly(keys: seq<string>, acts: seq<Action>, n: nat, r: nat, fails: bool)
    requires ReloadedAt(keys, acts, n, r, fails)
    ensures Enabled(keys, Exec(keys, acts), Save(r))
    ensures KeepsAll(Exec(keys, acts).file, Exec(keys, acts + [Save(r)]).file) <==>
            !SavesBetween(keys, acts, n, |acts|) && (fails ==> Exec(keys, acts[..n]).file == NOTHING)
  {
    var s0, s := Exec(keys, acts[..n]), Exec(keys, acts);
    assert acts[..|acts|] == acts;
    SinceReload(keys, acts, n, r, fails, |acts|);
    ExecInv(keys, acts[..n]);
    ExecInv(keys, acts);
    assert ReplicaOk(keys, s, r);
    assert (acts + [Save(r)])[..|acts|] == acts;
    SaveAgainst(keys, s0, s, r, fails, SavesBetween(keys, acts, n, |acts|));
  }

  lemma SaveAgainst(keys: seq<string>, s0: Sys, s: Sys, r: nat, fails: bool, saves: bool)
    requires Inv(keys, s0) && Inv(keys, s) && Since(s0, s, r, fails, saves) && s.phases[r].i < |keys|
    ensures Enabled(keys, s, Save(r))
    ensures KeepsAll(s.file, Apply(keys, s, Save(r)).file) <==> !saves && (fails ==> s0.file == NOTHING)
  {
    var p := s.phases[r];
    var file := Append(p.loaded, keys[p.i], p.ok);
    assert ReplicaOk(keys, s, r);
    if saves {
      var k, ok :| Lists(s.file, k, ok) && !WasSaved(s0, k);
      assert WasSaved(s, k) by { assert (k, ok) in s.saved; }
      UnsavedIsUnlisted(s0, Loaded(s0, fails), k);
      assert !Lists(file, k, ok);
    } else if fails && s0.file != NOTHING {
      var ok := s0.file.completed != [];
      var k := if ok then s0.file.completed[0] else s0.file.failed[0];
      assert Lists(s.file, k, ok) && (k, ok) in s.saved && !Lists(file, k, ok);
    }
  }

  /** In particular, of two replicas that both re-read before either saves, the later save drops the
      earlier one's entry. */
  lemma LaterSaveDrops(keys: seq<string>, acts: seq<Action>, r: nat, r': nat)
    requires var s := Exec(keys, acts);
             r != r' && r in s.phases && r' in s.phases && s.phases[r].Merging? && s.phases[r'].Merging?
    ensures var s := Exec(keys, acts);
            && s.phases[r].i < |keys|
            && var s' := Exec(keys, acts + [Save(r), Save(r')]);
            && WasSaved(s', keys[s.phases[r].i]) && !ListsAny(s'.file, keys[s.phases[r].i])
  {
    ExecInv(keys, acts);
    TwoSavesDrop(keys, Exec(keys, acts), r, r');
    var once := acts + [Save(r)];
    assert once[..|acts|] == acts;
    assert (acts + [Save(r), Save(r')])[..|once|] == once;
  }

  lemma TwoSavesDrop(keys: seq<string>, s: Sys, r: nat, r': nat)
    requires Inv(keys, s)
    requires r != r' && r in s.phases && r' in s.phases && s.phases[r].Merging? && s.phases[r'].Merging?
    ensures s.phases[r].i < |keys|
    ensures var s' := Step(keys, Step(keys, s, Save(r)), Save(r'));
            WasSaved(s', keys[s.phases[r].i]) && !ListsAny(s'.file, keys[s.phases[r].i])
  {
    assert ReplicaOk(keys, s, r) && ReplicaOk(keys, s, r') && Apart(keys, s, r, r');
    UnsavedIsUnlisted(s, s.phases[r'].loaded, keys[s.phases[r].i]);
  }

  // --- a run that drops an entry -----------------------------------------------------------------

  lemma Then(keys: seq<string>, acts: seq<Action>, a: Action)
    ensures Exec(keys, acts + [a]) == Step(keys, Exec(keys, acts), a)
  {
    assert (acts + [a])[..|acts|] == acts;
  }

  /** From a fresh key to the moment before its save. */
  function Driven(r: nat): seq<Action> {
    [Check(r, false), Claim(r), Begin(r), Finish(r, true), Reload(r, false)]
  }

  lemma DrivenTo(keys: seq<string>, acts: seq<Action>, r: nat, i: nat)
    requires var s := Exec(keys, acts);
             && i < |keys| && r in s.phases && s.phases[r] == Next(i)
             && !ListsAny(s.file, keys[i]) && Path(keys[i]) !in s.claims
    ensures var s := Exec(keys, acts);
            Exec(keys, acts + Driven(r)) == Sys(s.phases[r := Merging(i, true, s.file)], s.claims + {Path(keys[i])}, s.file,
                                                s.saved, s.log + [Start(keys[i]), Ended(keys[i], true)])
  {
    var s := Exec(keys, acts);
    var a1, a2, a3, a4 := acts + [Check(r, false)], acts + [Check(r, false), Claim(r)],
      acts + [Check(r, false), Claim(r), Begin(r)], acts + [Check(r, false), Claim(r), Begin(r), Finish(r, true)];
    assert a2 == a1 + [Claim(r)] && a3 == a2 + [Begin(r)] && a4 == a3 + [Finish(r, true)];
    assert acts + Driven(r) == a4 + [Reload(r, false)];
    Then(keys, acts, Check(r, false));
    Then(keys, a1, Claim(r));
    Then(keys, a2, Begin(r));
    Then(keys, a3, Finish(r, true));
    Then(keys, a4, Reload(r, false));
    var s2 := Exec(keys, a2);
    assert s2 == Sys(s.phases[r := Claimed(i)], s.claims + {Path(keys[i])}, s.file, s.saved, s.log);
    assert s.log + [Start(keys[i])] + [Ended(keys[i], true)] == s.log + [Start(keys[i]), Ended(keys[i], true)];
  }

  /** Two replicas, each up to the moment before its save. */
  function BothMerging(): seq<Action> {
    [Restart(0)] + Driven(0) + [Restart(1), Check(1, false), Claim(1)] + Driven(1)
  }

  /** For any two first keys that do not share a claim, this run from the start drops the first
      replica's entry: it was saved, and the file lists only the other's. */
  lemma DroppedEntry(keys: seq<string>)
    requires |keys| >= 2 && Path(keys[0]) != Path(keys[1])
    ensures var s := Exec(keys, BothMerging() + [Save(0), Save(1)]);
            s.file == Progress([keys[1]], []) && WasSaved(s, keys[0]) && Path(keys[0]) in s.claims
  {
    MeetAtMerging(keys);
    TwoSaves(keys, BothMerging());
  }

  lemma TwoSaves(keys: seq<string>, acts: seq<Action>)
    requires |keys| >= 2
    requires var s := Exec(keys, acts);
             && 0 in s.phases && s.phases[0] == Merging(0, true, NOTHING)
             && 1 in s.phases && s.phases[1] == Merging(1, true, NOTHING)
    ensures var s := Exec(keys, acts + [Save(0), Save(1)]);
            s.file == Progress([keys[1]], []) && WasSaved(s, keys[0]) && s.claims == Exec(keys, acts).claims
  {
    Then(keys, acts, Save(0));
    Then(keys, acts + [Save(0)], Save(1));
    assert acts + [Save(0)] + [Save(1)] == acts + [Save(0), Save(1)];
    assert [] + [keys[1]] == [keys[1]];
  }

  lemma MeetAtMerging(keys: seq<string>)
    requires |keys| >= 2 && Path(keys[0]) != Path(keys[1])
    ensures var s := Exec(keys, BothMerging());
            && s.phases == map[0 := Merging(0, true, NOTHING), 1 := Merging(1, true, NOTHING)]
            && s.file == NOTHING && Path(keys[0]) in s.claims
  {
    var first := [Restart(0)] + Driven(0);
    var second := first + [Restart(1), Check(1, false), Claim(1)];
    FirstMerging(keys);
    SecondMovesOn(keys, first);
    DrivenTo(keys, second, 1, 1);
    assert BothMerging() == second + Driven(1);
  }

  lemma FirstMerging(keys: seq<string>)
    requires |keys| >= 2
    ensures var s := Exec(keys, [Restart(0)] + Driven(0));
            s.phases == map[0 := Merging(0, true, NOTHING)] && s.file == NOTHING && s.claims == {Path(keys[0])}
  {
    FirstRestart(keys);
    DrivenTo(keys, [Restart(0)], 0, 0);
  }

  lemma FirstRestart(keys: seq<string>)
    ensures Exec(keys, [Restart(0)]) == START.(phases := map[0 := Next(0)])
  {
    assert [Restart(0)][..0] == [];
  }

  /** A second replica finds the first key claimed and goes on to the next. */
  lemma SecondMovesOn(keys: seq<string>, acts: seq<Action>)
    requires |keys| >= 2
    requires var s := Exec(keys, acts); s.file == NOTHING && Path(keys[0]) in s.claims
    ensures Exec(keys, acts + [Restart(1), Check(1, false), Claim(1)]) ==
            Exec(keys, acts).(phases := Exec(keys, acts).phases[1 := Next(1)])
  {
    var s := Exec(keys, acts);
    Then(keys, acts, Restart(1));
    Then(keys, acts + [Restart(1)], Check(1, false));
    Then(keys, acts + [Restart(1)] + [Check(1, false)], Claim(1));
    assert acts + [Restart(1)] + [Check(1, false)] + [Claim(1)] == acts + [Restart(1), Check(1, false), Claim(1)];
    assert s.claims + {Path(keys[0])} == s.claims;
    assert s.phases[1 := Next(0)][1 := Checked(0)][1 := Next(1)] == s.phases[1 := Next(1)];
  }

  // --- what is never made up for ---------------------------------------------------------------

  /** A key that was ever saved keeps its claim, so a dropped entry is never built again. */
  lemma SavedStaysClaimed(keys: seq<string>, acts: seq<Action>, r: nat, key: string)
    requires WasSaved(Exec(keys, acts), key) && r in Exec(keys, acts).phases
    ensures var p := Exec(keys, acts).phases[r]; HasClaim(p) ==> p.i < |keys| && keys[p.i] != key
    ensures Path(key) in Exec(keys, acts).claims
  {
    ExecInv(keys, acts);
    assert ReplicaOk(keys, Exec(keys, acts), r);
  }

  /** Claimed, held by no replica, never saved. */
  ghost predicate Abandoned(keys: seq<string>, s: Sys, key: string) {
    && Path(key) in s.claims && !WasSaved(s, key)
    && (forall r :: r in s.phases && HasClaim(s.phases[r]) ==> s.phases[r].i < |keys| && Path(keys[s.phases[r].i]) != Path(key))
  }

  lemma AbandonedStep(keys: seq<string>, s: Sys, a: Action, key: string)
    requires Abandoned(keys, s, key)
    ensures Abandoned(keys, Step(keys, s, a), key)
    ensures NotStarted(s.log, Path(key)) ==> NotStarted(Step(keys, s, a).log, Path(key))
  {
  }

  lemma {:induction false} AbandonedForever(keys: seq<string>, acts: seq<Action>, more: seq<Action>, key: string)
    requires Abandoned(keys, Exec(keys, acts), key)
    ensures Abandoned(keys, Exec(keys, acts + more), key)
    ensures NotStarted(Exec(keys, acts).log, Path(key)) ==> NotStarted(Exec(keys, acts + more).log, Path(key))
  {
    if more == [] {
      assert acts + more == acts;
    } else {
      var n := |more| - 1;
      AbandonedForever(keys, acts, more[..n], key);
      assert (acts + more)[..|acts + more| - 1] == acts + more[..n];
      AbandonedStep(keys, Exec(keys, acts + more[..n]), more[n], key);
    }
  }

  /** A replica that restarts with a claim in hand leaves its key claimed and unlisted for good,
      whatever happens afterwards; if it had only claimed it, the key is never built either. */
  lemma RestartAbandons(keys: seq<string>, acts: seq<Action>, r: nat, more: seq<Action>)
    requires r in Exec(keys, acts).phases && HasClaim(Exec(keys, acts).phases[r])
    ensures var p := Exec(keys, acts).phases[r];
            && p.i < |keys|
            && var s := Exec(keys, acts + [Restart(r)] + more);
            && Path(keys[p.i]) in s.claims && !ListsAny(s.file, keys[p.i])
            && (p.Claimed? ==> NotStarted(s.log, Path(keys[p.i])))
  {
    var s := Exec(keys, acts);
    var p := s.phases[r];
    ExecInv(keys, acts);
    assert ReplicaOk(keys, s, r);
    Then(keys, acts, Restart(r));
    forall r' | r' in s.phases && r' != r && HasClaim(s.phases[r']) ensures Path(keys[s.phases[r'].i]) != Path(keys[p.i]) {
      assert Apart(keys, s, r, r');
    }
    assert forall r' :: r' in s.phases && HasClaim(s.phases[r']) ==> ReplicaOk(keys, s, r');
    AbandonedForever(keys, acts + [Restart(r)], more, keys[p.i]);
    ExecInv(keys, acts + [Restart(r)] + more);
    UnsavedIsUnlisted(Exec(keys, acts + [Restart(r)] + more), Exec(keys, acts + [Restart(r)] + more).file, keys[p.i]);
  }

  // --- one replica's pass ----------------------------------------------------------------------

  /** The claim directory and the progress file. */
  class SharedDir {
    var claims: set<string>
    var file: Progress

    constructor ()
      ensures claims == {} && file == NOTHING
    {
      claims, file := {}, NOTHING;
    }

    /** mkdir: true exactly for the first to ask. */
    method TryClaim(key: string) returns (got: bool)
      modifies this`claims
      ensures got <==> Path(key) !in old(claims)
      ensures claims == old(claims) + {Path(key)}
    {
      got := Path(key) !in claims;
      claims := claims + {Path(key)};
    }

    method LoadProgress(fails: bool) returns (p: Progress)
      ensures p == if fails then NOTHING else file
    {
      p := if fails then NOTHING else file;
    }

    /** A write to a temporary file and an atomic replace. */
    method SaveProgress(p: Progress)
      modifies this`file
      ensures file == p
    {
      file := p;
    }
  }

  /** The keys the pass builds: not listed, and the first of their path. */
  function ToBuild(keys: seq<string>, claims: set<string>, p: Progress): seq<string> {
    if keys == [] then []
    else if ListsAny(p, keys[0]) || Path(keys[0]) in claims then ToBuild(keys[1..], claims, p)
    else [keys[0]] + ToBuild(keys[1..], claims + {Path(keys[0])}, p)
  }

  function Results(built: seq<string>, oks: string -> bool, ok: bool): seq<string> {
    if built == [] then []
    else Results(built[..|built| - 1], oks, ok) + if oks(built[|built| - 1]) == ok then [built[|built| - 1]] else []
  }

  /** The progress with these keys' results added. */
  function After(p: Progress, built: seq<string>, oks: string -> bool): Progress {
    Progress(p.completed + Results(built, oks, true), p.failed + Results(built, oks, false))
  }

  /** One pass with no other replica about: each key is built, or was listed or claimed before;
      the tallies add up, and the file gains exactly the results, in order. */
  method RunReplica(dir: SharedDir, keys: seq<string>, oks: string -> bool)
    returns (successes: nat, failures: nat, skipped: nat)
    modifies dir
    ensures successes + failures + skipped == |keys|
    ensures var built := ToBuild(keys, old(dir.claims), old(dir.file));
            && dir.file == After(old(dir.file), built, oks)
            && successes == |Results(built, oks, true)| && failures == |Results(built, oks, false)|
  {
    successes, failures, skipped := 0, 0, 0;
    ghost var p, all := dir.file, ToBuild(keys, dir.claims, dir.file);
    ghost var built: seq<string> := [];
    for i := 0 to |keys|
      invariant successes + failures + skipped == i
      invariant SoFar(keys, i, p, all, oks, built, dir.claims)
      invariant dir.file == After(p, built, oks)
      invariant successes == |Results(built, oks, true)| && failures == |Results(built, oks, false)|
    {
      var key := keys[i];
      SoFarStep(keys, i, p, all, oks, built, dir.claims);
      ResultStep(p, built, oks, key);
      var did := Attend(dir, key, oks(key));
      if !did {
        skipped := skipped + 1;
      } else {
        built := built + [key];
        if oks(key) { successes := successes + 1; } else { failures := failures + 1; }
      }
    }
    assert keys[|keys|..] == [];
    assert all == built;
  }

  /** `built` and what is left to build are all that is built, and `built` is claimed. */
  ghost predicate SoFar(
    keys: seq<string>, i: nat, p: Progress, all: seq<string>, oks: string -> bool, built: seq<string>, claims: set<string>) {
    i <= |keys| && all == built + ToBuild(keys[i..], claims, p) && forall k :: k in built ==> Path(k) in claims
  }

  lemma SoFarStep(
    keys: seq<string>, i: nat, p: Progress, all: seq<string>, oks: string -> bool, built: seq<string>, claims: set<string>)
    requires i < |keys| && SoFar(keys, i, p, all, oks, built, claims)
    ensures var key := keys[i];
            if !ListsAny(After(p, built, oks), key) && Path(key) !in claims
            then SoFar(keys, i + 1, p, all, oks, built + [key], claims + {Path(key)})
            else SoFar(keys, i + 1, p, all, oks, built, claims)
  {
    PassStep(keys, i, claims, p, built, oks);
  }

  /** Check, claim, build and report one key; false if it is not this replica's to build. */
  method Attend(dir: SharedDir, key: string, ok: bool) returns (did: bool)
    modifies dir
    ensures did <==> !ListsAny(old(dir.file), key) && Path(key) !in old(dir.claims)
    ensures !did ==> dir.file == old(dir.file) && dir.claims == old(dir.claims)
    ensures did ==> dir.file == Append(old(dir.file), key, ok) && dir.claims == old(dir.claims) + {Path(key)}
  {
    var progress := dir.LoadProgress(false);
    if key in progress.completed || key in progress.failed { return false; }
    var got := dir.TryClaim(key);
    if !got { return false; }
    Report(dir, key, ok);
    return true;
  }

  /** Re-reads the progress, adds the result and saves. */
  method Report(dir: SharedDir, key: string, ok: bool)
    modifies dir`file
    ensures dir.file == Append(old(dir.file), key, ok)
  {
    var progress := dir.LoadProgress(false);
    dir.SaveProgress(Append(progress, key, ok));
  }

  lemma ToBuildStep(keys: seq<string>, i: nat, claims: set<string>, p: Progress)
    requires i < |keys|
    ensures ToBuild(keys[i..], claims, p) ==
            if ListsAny(p, keys[i]) || Path(keys[i]) in claims then ToBuild(keys[i + 1..], claims, p)
            else [keys[i]] + ToBuild(keys[i + 1..], claims + {Path(keys[i])}, p)
  {
    assert keys[i..][1..] == keys[i + 1..];
  }

  /** One key of the pass: what is left to build. */
  lemma PassStep(keys: seq<string>, i: nat, claims: set<string>, p: Progress, built: seq<string>, oks: string -> bool)
    requires i < |keys| && forall k :: k in built ==> Path(k) in claims
    ensures var key := keys[i]; var rest := ToBuild(keys[i + 1..], claims + {Path(key)}, p);
            built + ToBuild(keys[i..], claims, p) ==
            if !ListsAny(After(p, built, oks), key) && Path(key) !in claims then (built + [key]) + rest
            else built + ToBuild(keys[i + 1..], claims, p)
  {
    var key := keys[i];
    var rest := ToBuild(keys[i + 1..], claims + {Path(key)}, p);
    ToBuildStep(keys, i, claims, p);
    Regroup(built, key, rest);
    if Path(key) !in claims { AfterLists(p, built, oks, key); }
  }

  lemma Regroup(a: seq<string>, x: string, b: seq<string>)
    ensures a + ([x] + b) == (a + [x]) + b
  {
  }

  lemma AfterLists(p: Progress, built: seq<string>, oks: string -> bool, key: string)
    ensures ListsAny(After(p, built, oks), key) <==> ListsAny(p, key) || key in built
  {
    ResultsAreBuilt(built, oks, key);
  }

  /** And what its result becomes. */
  lemma ResultStep(p: Progress, built: seq<string>, oks: string -> bool, key: string)
    ensures After(p, built + [key], oks) == Append(After(p, built, oks), key, oks(key))
    ensures |Results(built + [key], oks, true)| == |Results(built, oks, true)| + (if oks(key) then 1 else 0)
    ensures |Results(built + [key], oks, false)| == |Results(built, oks, false)| + (if oks(key) then 0 else 1)
  {
    assert (built + [key])[..|built|] == built;
  }

  lemma {:induction false} ResultsAreBuilt(built: seq<string>, oks: string -> bool, key: string)
    ensures key in Results(built, oks, true) || key in Results(built, oks, false) <==> key in built
  {
    if built != [] { ResultsAreBuilt(built[..|built| - 1], oks, key); }
  }

  // --- a pass, key by key ----------------------------------------------------------------------

  /** Ascending places that hold these elements. */
  ghost predicate Picks(s: seq<string>, picked: seq<string>, at: seq<nat>) {
    && |at| == |picked| && (forall k, l :: 0 <= k < l < |at| ==> at[k] < at[l])
    && (forall k :: 0 <= k < |at| ==> at[k] < |s| && picked[k] == s[at[k]])
  }

  /** Not listed, not claimed, and every earlier key of the same path was listed. */
  ghost predicate IsBuilt(keys: seq<string>, claims: set<string>, p: Progress, i: nat) {
    && i < |keys| && keys[i] !in p.completed && keys[i] !in p.failed && Path(keys[i]) !in claims
    && forall j :: 0 <= j < i && Path(keys[j]) == Path(keys[i]) ==> ListsAny(p, keys[j])
  }

  function Later(at: seq<nat>): seq<nat> { seq(|at|, k requires 0 <= k < |at| => at[k] + 1) }

  lemma InLater(at: seq<nat>, i: nat)
    ensures i in Later(at) <==> i > 0 && i - 1 in at
  {
    if i > 0 && i - 1 in at {
      var k :| 0 <= k < |at| && at[k] == i - 1;
      assert Later(at)[k] == i;
    }
  }

  lemma IsBuiltShift(keys: seq<string>, claims: set<string>, p: Progress, i: nat)
    requires keys != [] && i > 0
    ensures IsBuilt(keys, claims, p, i) <==>
            IsBuilt(keys[1..], if ListsAny(p, keys[0]) || Path(keys[0]) in claims then claims else claims + {Path(keys[0])}, p, i - 1)
  {
    var rest := keys[1..];
    assert forall j :: 0 <= j < |rest| ==> rest[j] == keys[j + 1];
    if IsBuilt(rest, if ListsAny(p, keys[0]) || Path(keys[0]) in claims then claims else claims + {Path(keys[0])}, p, i - 1) {
      forall j | 0 <= j < i && Path(keys[j]) == Path(keys[i]) ensures ListsAny(p, keys[j]) {
        assert j > 0 ==> rest[j - 1] == keys[j];
      }
    }
  }

  lemma PicksLater(s: seq<string>, picked: seq<string>, at: seq<nat>)
    requires s != [] && Picks(s[1..], picked, at)
    ensures Picks(s, picked, Later(at)) && Picks(s, [s[0]] + picked, [0] + Later(at))
  {
  }

  lemma BuiltLater(keys: seq<string>, claims: set<string>, p: Progress, next: seq<nat>)
    requires keys != []
    requires var skip := ListsAny(p, keys[0]) || Path(keys[0]) in claims;
             forall i: nat :: i in next <==> IsBuilt(keys[1..], if skip then claims else claims + {Path(keys[0])}, p, i)
    ensures var skip := ListsAny(p, keys[0]) || Path(keys[0]) in claims;
            forall i: nat :: i in (if skip then Later(next) else [0] + Later(next)) <==> IsBuilt(keys, claims, p, i)
  {
    var skip := ListsAny(p, keys[0]) || Path(keys[0]) in claims;
    forall i: nat ensures i in (if skip then Later(next) else [0] + Later(next)) <==> IsBuilt(keys, claims, p, i) {
      InLater(next, i);
      if i > 0 { IsBuiltShift(keys, claims, p, i); }
    }
  }

  /** The keys a pass builds are in their order those at the places that are to be built. */
  lemma {:induction false} BuildsExactly(keys: seq<string>, claims: set<string>, p: Progress) returns (at: seq<nat>)
    ensures Picks(keys, ToBuild(keys, claims, p), at)
    ensures forall i: nat :: i in at <==> IsBuilt(keys, claims, p, i)
  {
    at := [];
    if keys != [] {
      var skip := ListsAny(p, keys[0]) || Path(keys[0]) in claims;
      var after := if skip then claims else claims + {Path(keys[0])};
      var next := BuildsExactly(keys[1..], after, p);
      BuiltLater(keys, claims, p, next);
      PicksLater(keys, ToBuild(keys[1..], after, p), next);
      at := if skip then Later(next) else [0] + Later(next);
    }
  }

  /** And the results of one kind are in their order those of the keys that ended so. */
  lemma {:induction false} ResultsExactly(built: seq<string>, oks: string -> bool, ok: bool) returns (at: seq<nat>)
    ensures Picks(built, Results(built, oks, ok), at)
    ensures forall i: nat :: i in at <==> i < |built| && oks(built[i]) == ok
  {
    at := [];
    if built != [] {
      var n := |built| - 1;
      at := ResultsExactly(built[..n], oks, ok);
      if oks(built[n]) == ok { at := at + [n]; }
    }
  }

  /** A claim's name: the key with every slash an underscore. */
  lemma PathText(key: string, i: nat)
    requires i < |key|
    ensures key[i] == '/' ==> Path(key)[i] == '_'
    ensures key[i] != '/' ==> Path(key)[i] == key[i]
  {
  }
}
