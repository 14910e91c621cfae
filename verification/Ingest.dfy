/** The ingest handlers: one typed message, the store, the acknowledgement to give
    (backend/assemblage/coordinator/ingest.py). */
module Ingest {
  import opened Wrappers
  import opened Tables
  import opened FanOut
  import opened Store
  import opened Lifecycle

  /** A handler either asks for an ack or raises, in which case the delivery is requeued. */
  datatype Outcome = Ack | Raised

  datatype CloneMsg = CloneMsg(task: nat, status: CloneStatus, msg: string)
  datatype BuildMsg = BuildMsg(task: nat, status: BuildStatus, msg: string, time: int, sha: string)
  datatype IrMsg = IrMsg(task: nat, stages: seq<(string, IrRecord)>)

  const CLONE_MSG_LIMIT := 200
  const BUILD_MSG_LIMIT := 500
  const SIBLING_MSG := "Sibling build failed"

  /** s[-n:] */
  function Tail(s: string, n: nat): string {
    if |s| <= n then s else s[|s| - n..]
  }

  function CloneUpdate(m: CloneMsg): Update {
    Update(Some(m.status), Some(Tail(m.msg, CLONE_MSG_LIMIT)), None, None, None, "")
  }

  function BuildUpdate(m: BuildMsg): Update {
    Update(None, None, Some(m.status), Some(m.time), Some(Tail(m.msg, BUILD_MSG_LIMIT)), m.sha)
  }

  function InitSiblings(db: Db, repo: nat, except: nat): set<nat> {
    set i | i in db.rows && IsInitSibling(db.rows[i], i, repo, except)
  }

  /** The tables after a build report handled without interruption. */
  function AfterBuild(db: Db, m: BuildMsg, now: int): Db {
    var d := UpdateStatus(db, m.task, BuildUpdate(m), now);
    if m.status == BuildFailed && m.task in d.rows
    then FailSiblings(d, d.rows[m.task].repo, m.task, SIBLING_MSG, now) else d
  }

  class BuildStats {
    var successes: nat
    var failures: nat

    constructor ()
      ensures successes == 0 && failures == 0
    {
      successes, failures := 0, 0;
    }
  }

  /** Each repository of the bundle on its own; one that fails does not sink the others. */
  method HandleScrape(store: CoordinatorStore, bundle: seq<Repo>, fails: seq<bool>, now: int) returns (r: Outcome, saved: nat)
    requires store.Valid() && |fails| == |bundle|
    modifies store
    ensures store.Valid() && r == Ack
    ensures store.Contents() == Run(old(store.Contents()), Inserted(bundle, fails, now))
    ensures store.nextRepo == old(store.nextRepo) + saved
    ensures BundleIsIn(old(store.repos), bundle, fails, store.repos)
  {
    ghost var before := store.Contents();
    saved := 0;
    var n := 0;
    while n < |bundle|
      invariant n <= |bundle| && store.Valid()
      invariant store.Contents() == Run(before, Inserted(bundle[..n], fails[..n], now))
      invariant store.nextRepo == old(store.nextRepo) + saved
    {
      InsertCounts(store.Contents(), bundle[n], now);
      var one := store.InsertRepos(bundle[n], now, fails[n]);
      InsertedStep(before, bundle, fails, n, now);
      saved, n := saved + one, n + 1;
    }
    assert bundle[..n] == bundle && fails[..n] == fails;
    InsertedBundle(before, bundle, fails, now);
    r := Ack;
  }

  lemma InsertCounts(db: Db, repo: Repo, now: int)
    ensures Apply(db, OpInsert(repo, now)).nextRepo == db.nextRepo + if UrlTaken(db.repos, repo.url) then 0 else 1
  {
  }

  /** One insertion: the URL is there afterwards, the repositories before stay, a new one is this. */
  lemma InsertedRepos(db: Db, repo: Repo, now: int)
    requires Inv(db)
    ensures var db' := Apply(db, OpInsert(repo, now));
            && UrlTaken(db'.repos, repo.url)
            && (forall r :: r in db.repos ==> r in db'.repos && db'.repos[r] == db.repos[r])
            && (forall r :: r in db'.repos && r !in db.repos ==> db'.repos[r] == repo)
            && (forall url :: UrlTaken(db.repos, url) ==> UrlTaken(db'.repos, url))
  {
    var db' := Apply(db, OpInsert(repo, now));
    if !UrlTaken(db.repos, repo.url) { assert db'.repos[db.nextRepo].url == repo.url; }
    forall url | UrlTaken(db.repos, url) ensures UrlTaken(db'.repos, url) {
      var r :| r in db.repos && db.repos[r].url == url;
      assert db'.repos[r].url == url;
    }
  }

  predicate OffersRepo(bundle: seq<Repo>, fails: seq<bool>, repo: Repo)
    requires |fails| == |bundle|
  {
    exists n :: 0 <= n < |bundle| && !fails[n] && bundle[n] == repo
  }

  /** Every repository whose insertion does not fail has its URL stored, those before stay, and a new
      one is from the bundle. */
  ghost predicate BundleIsIn(before: map<nat, Repo>, bundle: seq<Repo>, fails: seq<bool>, after: map<nat, Repo>)
    requires |fails| == |bundle|
  {
    && (forall n :: 0 <= n < |bundle| && !fails[n] ==> UrlTaken(after, bundle[n].url))
    && (forall r :: r in before ==> r in after && after[r] == before[r])
    && (forall r :: r in after && r !in before ==> OffersRepo(bundle, fails, after[r]))
  }

  lemma {:induction false} InsertedBundle(db: Db, bundle: seq<Repo>, fails: seq<bool>, now: int)
    requires Inv(db) && |fails| == |bundle|
    ensures BundleIsIn(db.repos, bundle, fails, Run(db, Inserted(bundle, fails, now)).repos)
  {
    if bundle != [] {
      var n := |bundle| - 1;
      var b, f := bundle[..n], fails[..n];
      var done := Run(db, Inserted(b, f, now));
      InsertedBundle(db, b, f, now);
      InsertedStep(db, bundle, fails, n, now);
      assert bundle[..n + 1] == bundle && fails[..n + 1] == fails;
      RunKeepsInv(db, Inserted(b, f, now));
      InsertedRepos(done, bundle[n], now);
      BundleGrows(db.repos, bundle, fails, n, done.repos, if fails[n] then done.repos else Apply(done, OpInsert(bundle[n], now)).repos);
    }
  }

  lemma BundleGrows(before: map<nat, Repo>, bundle: seq<Repo>, fails: seq<bool>, n: nat, mid: map<nat, Repo>, after: map<nat, Repo>)
    requires n + 1 == |bundle| == |fails| && BundleIsIn(before, bundle[..n], fails[..n], mid)
    requires forall r :: r in mid ==> r in after && after[r] == mid[r]
    requires forall r :: r in after && r !in mid ==> !fails[n] && after[r] == bundle[n]
    requires forall url :: UrlTaken(mid, url) ==> UrlTaken(after, url)
    requires !fails[n] ==> UrlTaken(after, bundle[n].url)
    ensures BundleIsIn(before, bundle, fails, after)
  {
    forall k | 0 <= k < |bundle| && !fails[k] ensures UrlTaken(after, bundle[k].url) {
      if k < n { assert bundle[..n][k] == bundle[k] && fails[..n][k] == fails[k]; }
    }
    forall r | r in after && r !in before ensures OffersRepo(bundle, fails, after[r]) {
      if r in mid {
        assert OffersRepo(bundle[..n], fails[..n], mid[r]);
        var k :| 0 <= k < n && !fails[..n][k] && bundle[..n][k] == mid[r];
        assert bundle[k] == mid[r] && !fails[k];
      }
    }
  }

  lemma InsertedStep(db: Db, bundle: seq<Repo>, fails: seq<bool>, n: nat, now: int)
    requires n < |bundle| == |fails|
    ensures var done := Run(db, Inserted(bundle[..n], fails[..n], now));
            Run(db, Inserted(bundle[..n + 1], fails[..n + 1], now))
            == if fails[n] then done else Apply(done, OpInsert(bundle[n], now))
  {
    var ops, op := Inserted(bundle[..n], fails[..n], now), OpInsert(bundle[n], now);
    assert bundle[..n + 1][..n] == bundle[..n] && fails[..n + 1][..n] == fails[..n];
    if fails[n] {
      assert ops + [] == ops;
    } else {
      RunConcat(db, ops, [op]);
      OneStep(Run(db, ops), op);
    }
  }

  function Inserted(bundle: seq<Repo>, fails: seq<bool>, now: int): seq<Op>
    requires |fails| == |bundle|
  {
    if bundle == [] then []
    else
      var n := |bundle| - 1;
      Inserted(bundle[..n], fails[..n], now) + if fails[n] then [] else [OpInsert(bundle[n], now)]
  }

  method HandleCloneStatus(store: CoordinatorStore, m: CloneMsg, now: int) returns (r: Outcome)
    requires store.Valid()
    modifies store
    ensures store.Valid() && r == Ack
    ensures store.Contents() == UpdateStatus(old(store.Contents()), m.task, CloneUpdate(m), now)
    ensures store.rows.Keys == old(store.rows).Keys
    ensures forall i :: i in store.rows && i != m.task ==> store.rows[i] == old(store.rows)[i]
    ensures m.task in store.rows ==>
              store.rows[m.task] == old(store.rows)[m.task].(
                clone := m.status, cloneMsg := if |m.msg| <= 200 then m.msg else m.msg[|m.msg| - 200..], stamp := now)
  {
    store.UpdateRepoStatus(m.task, CloneUpdate(m), now);
    r := Ack;
  }

  /** What a build report writes: the status, time and last 500 characters it carries, its sha if it
      has one, and nothing else of its row; a FAILED one fails the siblings that have not started;
      no other row changes. */
  lemma ReportIsWritten(db: Db, m: BuildMsg, now: int, i: nat)
    requires i in db.rows
    ensures i in AfterBuild(db, m, now).rows
    ensures var row, after := db.rows[i], AfterBuild(db, m, now).rows[i];
            if i == m.task then
              after == row.(build := m.status, buildTime := m.time,
                            buildMsg := if |m.msg| <= 500 then m.msg else m.msg[|m.msg| - 500..],
                            sha := if m.sha != "" then m.sha else row.sha, stamp := now)
            else if m.status == BuildFailed && m.task in db.rows && row.repo == db.rows[m.task].repo && row.build == Init then
              after == row.(build := BuildFailed, buildMsg := "Sibling build failed", stamp := now)
            else after == row
  {
  }

  /** A FAILED report also fails the siblings that have not started building. */
  method HandleBuildStatus(store: CoordinatorStore, m: BuildMsg, stats: BuildStats, now: int) returns (r: Outcome)
    requires store.Valid()
    modifies store, stats
    ensures store.Valid()
    ensures store.Contents() == AfterBuild(old(store.Contents()), m, now)
    ensures r == if m.status == BuildFailed && m.task !in old(store.rows) then Raised else Ack
    ensures stats.successes == old(stats.successes) + if m.status == BuildSuccess then 1 else 0
    ensures stats.failures == old(stats.failures) + Failures(old(store.Contents()), m)
    ensures m.task in old(store.rows) ==>
              && m.task in store.rows
              && store.rows[m.task] == old(store.rows)[m.task].(
                   build := m.status, buildTime := m.time,
                   buildMsg := if |m.msg| <= 500 then m.msg else m.msg[|m.msg| - 500..],
                   sha := if m.sha != "" then m.sha else old(store.rows)[m.task].sha, stamp := now)
  {
    ghost var before := store.Contents();
    r := ApplyBuildReport(store, m, stats, now);
    if m.task in before.rows { ReportIsWritten(before, m, now, m.task); }
  }

  method ApplyBuildReport(store: CoordinatorStore, m: BuildMsg, stats: BuildStats, now: int) returns (r: Outcome)
    requires store.Valid()
    modifies store, stats
    ensures store.Valid()
    ensures store.Contents() == AfterBuild(old(store.Contents()), m, now)
    ensures r == if m.status == BuildFailed && m.task !in old(store.rows) then Raised else Ack
    ensures stats.successes == old(stats.successes) + if m.status == BuildSuccess then 1 else 0
    ensures stats.failures == old(stats.failures) + Failures(old(store.Contents()), m)
  {
    ghost var before := store.Contents();
    store.UpdateRepoStatus(m.task, BuildUpdate(m), now);
    UpdateKeepsSiblings(before, m.task, BuildUpdate(m), now);
    if m.status != BuildSuccess && m.status != BuildFailed {
      return Ack;
    }
    if m.status == BuildSuccess {
      stats.successes := stats.successes + 1;
    } else {
      stats.failures := stats.failures + 1;
      if m.task !in store.rows {
        return Raised;
      }
      var skipped := FailTheSiblings(store, m.task, now);
      stats.failures := stats.failures + skipped;
    }
    return Ack;
  }

  method FailTheSiblings(store: CoordinatorStore, task: nat, now: int) returns (skipped: nat)
    requires store.Valid() && task in store.rows
    modifies store
    ensures store.Valid()
    ensures var db := old(store.Contents());
            && store.Contents() == FailSiblings(db, db.rows[task].repo, task, SIBLING_MSG, now)
            && skipped == |InitSiblings(db, db.rows[task].repo, task)|
  {
    skipped := store.FailSiblingStatuses(store.rows[task].repo, task, SIBLING_MSG, now);
  }

  /** How many failures one report counts. */
  function Failures(db: Db, m: BuildMsg): nat {
    if m.status != BuildFailed then 0
    else if m.task !in db.rows then 1
    else 1 + |InitSiblings(db, db.rows[m.task].repo, m.task)|
  }

  /** Updating a row leaves it in its repository and its siblings as they were. */
  lemma UpdateKeepsSiblings(db: Db, task: nat, u: Update, now: int)
    ensures var d := UpdateStatus(db, task, u, now);
            && (task in d.rows <==> task in db.rows)
            && (task in db.rows ==> d.rows[task].repo == db.rows[task].repo)
            && forall repo: nat :: InitSiblings(d, repo, task) == InitSiblings(db, repo, task)
  {
    forall repo: nat ensures InitSiblings(UpdateStatus(db, task, u, now), repo, task) == InitSiblings(db, repo, task) {
    }
  }

  method HandleIr(store: CoordinatorStore, m: IrMsg) returns (r: Outcome)
    requires store.Valid()
    modifies store
    ensures store.Valid()
    ensures store.Contents() == Apply(old(store.Contents()), OpIr(m.task, m.stages))
    ensures r == if m.task in store.rows || m.stages == [] then Ack else Raised
  {
    var written := store.UpsertIrArtifacts(m.task, m.stages);
    r := if written.Some? then Ack else Raised;
  }

  // --- redelivery ---------------------------------------------------------------------------

  /** A clone, build or IR message handled twice in a row leaves what handling it once left, but
      for row timestamps. */
  lemma ReplayChangesOnlyStamps(db: Db, c: CloneMsg, b: BuildMsg, ir: IrMsg, t1: int, t2: int)
    ensures var once := UpdateStatus(db, c.task, CloneUpdate(c), t1);
            SameButStamps(once, UpdateStatus(once, c.task, CloneUpdate(c), t2))
    ensures var once := AfterBuild(db, b, t1); SameButStamps(once, AfterBuild(once, b, t2))
    ensures var once := Apply(db, OpIr(ir.task, ir.stages)); Apply(once, OpIr(ir.task, ir.stages)) == once
  {
    UpdateTwice(db, c.task, CloneUpdate(c), t1, t2);
    ReplayBuild(db, b, t1, t2);
    UpsertIrTwice(db.ir, ir.task, ir.stages);
  }

  /** The tallies are not idempotent: a report handled again is counted again, though its siblings
      are not, having failed the first time. */
  lemma ReplayCountsAgain(db: Db, b: BuildMsg, now: int)
    ensures Failures(AfterBuild(db, b, now), b) == if b.status == BuildFailed then 1 else 0
    ensures Failures(db, b) >= Failures(AfterBuild(db, b, now), b)
  {
    if b.status == BuildFailed && b.task in db.rows {
      var repo, once := db.rows[b.task].repo, AfterBuild(db, b, now);
      var d := UpdateStatus(db, b.task, BuildUpdate(b), now);
      assert once.rows[b.task] == d.rows[b.task];
      SiblingsCleared(d, repo, b.task, SIBLING_MSG, now);
      assert InitSiblings(once, repo, b.task) == {};
    }
  }

  /** One report delivered twice: the counters grow by both handlings. */
  method HandleBuildTwice(store: CoordinatorStore, m: BuildMsg, stats: BuildStats, t1: int, t2: int)
    requires store.Valid()
    modifies store, stats
    ensures store.Valid() && store.Contents() == AfterBuild(AfterBuild(old(store.Contents()), m, t1), m, t2)
    ensures stats.successes == old(stats.successes) + if m.status == BuildSuccess then 2 else 0
    ensures stats.failures == old(stats.failures) + Failures(old(store.Contents()), m) + if m.status == BuildFailed then 1 else 0
  {
    ReplayCountsAgain(store.Contents(), m, t1);
    var first := HandleBuildStatus(store, m, stats, t1);
    var second := HandleBuildStatus(store, m, stats, t2);
  }

  lemma ReplayBuild(db: Db, b: BuildMsg, t1: int, t2: int)
    ensures var once := AfterBuild(db, b, t1); SameButStamps(once, AfterBuild(once, b, t2))
  {
    if b.status == BuildFailed && b.task in db.rows {
      ReplayFailed(db, b.task, BuildUpdate(b), db.rows[b.task].repo, t1, t2);
    } else {
      UpdateTwice(db, b.task, BuildUpdate(b), t1, t2);
    }
  }

  lemma ReplayFailed(db: Db, task: nat, u: Update, repo: nat, t1: int, t2: int)
    requires task in db.rows && db.rows[task].repo == repo && u.build == Some(BuildFailed)
    ensures var once := FailSiblings(UpdateStatus(db, task, u, t1), repo, task, SIBLING_MSG, t1);
            var again := UpdateStatus(once, task, u, t2);
            && once.rows[task].repo == repo
            && again.rows[task].repo == repo
            && SameButStamps(once, FailSiblings(again, repo, task, SIBLING_MSG, t2))
  {
    var d := UpdateStatus(db, task, u, t1);
    var once := FailSiblings(d, repo, task, SIBLING_MSG, t1);
    assert once.rows[task] == d.rows[task];
    var again := UpdateStatus(once, task, u, t2);
    SiblingsCleared(d, repo, task, SIBLING_MSG, t1);
    assert forall i :: i in again.rows ==> !IsInitSibling(again.rows[i], i, repo, task);
    assert FailSiblings(again, repo, task, SIBLING_MSG, t2).rows == again.rows;
  }

  /** The handler's two transactions are the FAILED report of the lifecycle theorem. */
  lemma FailedReportOps(db: Db, m: BuildMsg, now: int)
    requires m.status == BuildFailed && m.task in db.rows
    ensures AfterBuild(db, m, now) ==
            Run(db, FailedReport(m.task, BuildUpdate(m), now, [], db.rows[m.task].repo, SIBLING_MSG, now))
  {
    RunFailedReport(db, m.task, BuildUpdate(m), now, [], db.rows[m.task].repo, SIBLING_MSG, now);
  }
}
