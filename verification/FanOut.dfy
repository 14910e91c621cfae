/**
 Which status rows exist: one for each repository on each option that covers it, whatever the
 order of registrations and insertions.
 */
module FanOut {
  import opened Wrappers
  import opened Text
  import opened Tables

  // --- languages ---------------------------------------------------------------------------

  lemma LanguagesMatchIsEquivalence(a: string, b: string, c: string)
    ensures LanguagesMatch(a, a)
    ensures LanguagesMatch(a, b) <==> LanguagesMatch(b, a)
    ensures LanguagesMatch(a, b) && LanguagesMatch(b, c) ==> LanguagesMatch(a, c)
    ensures LanguagesMatch(a, b) <==> Lower(a) == Lower(b) || (Lower(a) in C_FAMILY && Lower(b) in C_FAMILY)
  {
    assert "c++" in C_FAMILY;
  }

  // --- the two coverage tests ----------------------------------------------------------------

  predicate TestsAgree(reg: Identity, repo: Repo) {
    CoveredAtRegister(reg, repo) <==> CoveredAtInsert(reg, repo)
  }

  /** The two tests ask for a substring in opposite directions. They agree on every option for
      "all", on languages that differ, and when each name contains the other or neither does. */
  lemma TestsAgreeExactly(reg: Identity, repo: Repo)
    ensures TestsAgree(reg, repo) <==>
            || reg.buildSystem == "all"
            || !LanguagesMatch(repo.language, reg.language)
            || repo.buildSystem == reg.buildSystem
            || (!Contains(repo.buildSystem, reg.buildSystem) && !Contains(reg.buildSystem, repo.buildSystem))
  {
    var a, b := repo.buildSystem, reg.buildSystem;
    ContainsMeansOccurs(a, b);
    ContainsMeansOccurs(b, a);
    if Contains(a, b) && Contains(b, a) {
      var i :| OccursAt(a, b, i);
      var j :| OccursAt(b, a, j);
      assert |a| == |b| && i == 0;
      assert a[0..|a|] == a;
    }
    if a == b { assert OccursAt(a, a, 0); }
  }

  // --- the invariant ------------------------------------------------------------------------

  function RowsFor(rows: map<nat, Row>, r: nat, o: nat): set<nat> {
    set i | i in rows && rows[i].repo == r && rows[i].opt == o
  }

  ghost predicate IdsBelow(db: Db) {
    && (forall r :: r in db.repos ==> r < db.nextRepo)
    && (forall o :: o in db.opts ==> o < db.nextOpt)
    && (forall i :: i in db.rows ==> i < db.nextRow)
  }

  ghost predicate RowsRefer(db: Db) {
    forall i :: i in db.rows ==> db.rows[i].repo in db.repos && db.rows[i].opt in db.opts
  }

  ghost predicate OneIdentityEach(db: Db) {
    forall o, o' :: o in db.opts && o' in db.opts && db.opts[o].identity == db.opts[o'].identity ==> o == o'
  }

  ghost predicate OneUrlEach(db: Db) {
    forall r, r' :: r in db.repos && r' in db.repos && db.repos[r].url == db.repos[r'].url ==> r == r'
  }

  /** At most one row a pair, and for pairs on which the two tests agree exactly one when the
      option covers the repository, none when it does not. */
  ghost predicate ExactPair(db: Db, r: nat, o: nat)
    requires r in db.repos && o in db.opts
  {
    && |RowsFor(db.rows, r, o)| <= 1
    && (TestsAgree(db.opts[o].identity, db.repos[r]) ==>
          |RowsFor(db.rows, r, o)| == if CoveredAtInsert(db.opts[o].identity, db.repos[r]) then 1 else 0)
  }

  ghost predicate ExactRows(db: Db) {
    forall r, o :: r in db.repos && o in db.opts ==> ExactPair(db, r, o)
  }

  ghost predicate Inv(db: Db) {
    IdsBelow(db) && RowsRefer(db) && OneIdentityEach(db) && OneUrlEach(db) && ExactRows(db)
  }

  // --- adding rows ----------------------------------------------------------------------------

  lemma AddRow(rows: map<nat, Row>, next: nat, row: Row, r: nat, o: nat)
    requires next !in rows
    ensures RowsFor(rows[next := row], r, o) ==
            RowsFor(rows, r, o) + (if row.repo == r && row.opt == o then {next} else {})
  {
  }

  /** Rows old and new: the old ones are untouched, the new ones are fresh and not started. */
  ghost predicate Grows(old_: map<nat, Row>, bound: nat, rows: map<nat, Row>, next: nat) {
    && bound <= next
    && (forall i :: i in old_ ==> i in rows && rows[i] == old_[i])
    && (forall i :: i in rows ==> i < next)
    && (forall i :: i in rows && i !in old_ ==> bound <= i && rows[i].clone == NotStarted && rows[i].build == Init && rows[i].sha == "")
  }

  lemma {:induction false} BackfillGrows(db: Db, reg: Identity, opt: nat, k: nat)
    requires IdsBelow(db)
    ensures var (rows, next) := Backfill(db, reg, opt, k);
            && Grows(db.rows, db.nextRow, rows, next)
            && (forall i :: i in rows && i !in db.rows ==> rows[i].opt == opt && rows[i].repo in db.repos)
  {
    if k > 0 { BackfillGrows(db, reg, opt, k - 1); }
  }

  lemma BackfillFresh(db: Db, reg: Identity, opt: nat, k: nat)
    requires IdsBelow(db)
    ensures Backfill(db, reg, opt, k).1 !in Backfill(db, reg, opt, k).0
  {
    BackfillGrows(db, reg, opt, k);
  }

  lemma EnrollFresh(db: Db, repo: Repo, id: nat, now: int, k: nat)
    requires IdsBelow(db)
    ensures Enroll(db, repo, id, now, k).1 !in Enroll(db, repo, id, now, k).0
  {
    EnrollGrows(db, repo, id, now, k);
  }

  lemma {:induction false} BackfillOthers(db: Db, reg: Identity, opt: nat, k: nat, r: nat, o: nat)
    requires IdsBelow(db) && o != opt
    ensures RowsFor(Backfill(db, reg, opt, k).0, r, o) == RowsFor(db.rows, r, o)
  {
    if k > 0 {
      BackfillOthers(db, reg, opt, k - 1, r, o);
      BackfillFresh(db, reg, opt, k - 1);
      var (rows, next) := Backfill(db, reg, opt, k - 1);
      AddRow(rows, next, NewRow(k - 1, opt, -1), r, o);
    }
  }

  lemma {:induction false} BackfillRows(db: Db, reg: Identity, opt: nat, k: nat, r: nat)
    requires IdsBelow(db)
    requires forall i :: i in db.rows ==> db.rows[i].opt != opt
    ensures |RowsFor(Backfill(db, reg, opt, k).0, r, opt)| ==
            if r < k && r in db.repos && CoveredAtRegister(reg, db.repos[r]) then 1 else 0
  {
    if k == 0 {
      assert RowsFor(db.rows, r, opt) == {};
    } else {
      BackfillRows(db, reg, opt, k - 1, r);
      BackfillFresh(db, reg, opt, k - 1);
      var (rows, next) := Backfill(db, reg, opt, k - 1);
      AddRow(rows, next, NewRow(k - 1, opt, -1), r, opt);
    }
  }

  lemma {:induction false} EnrollGrows(db: Db, repo: Repo, id: nat, now: int, k: nat)
    requires IdsBelow(db)
    ensures var (rows, next) := Enroll(db, repo, id, now, k);
            && Grows(db.rows, db.nextRow, rows, next)
            && (forall i :: i in rows && i !in db.rows ==> rows[i].repo == id && rows[i].opt in db.opts)
  {
    if k > 0 { EnrollGrows(db, repo, id, now, k - 1); }
  }

  lemma {:induction false} EnrollOthers(db: Db, repo: Repo, id: nat, now: int, k: nat, r: nat, o: nat)
    requires IdsBelow(db) && r != id
    ensures RowsFor(Enroll(db, repo, id, now, k).0, r, o) == RowsFor(db.rows, r, o)
  {
    if k > 0 {
      EnrollOthers(db, repo, id, now, k - 1, r, o);
      EnrollFresh(db, repo, id, now, k - 1);
      var (rows, next) := Enroll(db, repo, id, now, k - 1);
      AddRow(rows, next, NewRow(id, k - 1, now), r, o);
    }
  }

  lemma {:induction false} EnrollRows(db: Db, repo: Repo, id: nat, now: int, k: nat, o: nat)
    requires IdsBelow(db)
    requires forall i :: i in db.rows ==> db.rows[i].repo != id
    ensures |RowsFor(Enroll(db, repo, id, now, k).0, id, o)| ==
            if o < k && o in db.opts && CoveredAtInsert(db.opts[o].identity, repo) then 1 else 0
  {
    if k == 0 {
      assert RowsFor(db.rows, id, o) == {};
    } else {
      EnrollRows(db, repo, id, now, k - 1, o);
      EnrollFresh(db, repo, id, now, k - 1);
      var (rows, next) := Enroll(db, repo, id, now, k - 1);
      AddRow(rows, next, NewRow(id, k - 1, now), id, o);
    }
  }

  lemma {:induction false} FindOptFinds(opts: map<nat, BuildOpt>, reg: Identity, n: nat)
    ensures var f := FindOpt(opts, reg, n);
            && (f.Some? ==> f.value < n && f.value in opts && opts[f.value].identity == reg)
            && (f.None? ==> forall o :: o in opts && o < n ==> opts[o].identity != reg)
  {
    if n > 0 { FindOptFinds(opts, reg, n - 1); }
  }

  // --- preservation -----------------------------------------------------------------------------

  lemma RegisterKeepsInv(db: Db, reg: Identity)
    requires Inv(db)
    ensures Inv(RegisterBuildOpt(db, reg).0)
  {
    FindOptFinds(db.opts, reg, db.nextOpt);
    if FindOpt(db.opts, reg, db.nextOpt).None? {
      NewOptKeepsInv(db, reg);
    } else {
      var db' := RegisterBuildOpt(db, reg).0;
      assert db'.opts.Keys == db.opts.Keys;
      assert forall o :: o in db.opts ==> db'.opts[o].identity == db.opts[o].identity;
      assert forall r, o :: r in db'.repos && o in db'.opts && ExactPair(db, r, o) ==> ExactPair(db', r, o);
    }
  }

  lemma NewOptKeepsInv(db: Db, reg: Identity)
    requires Inv(db) && FindOpt(db.opts, reg, db.nextOpt).None?
    ensures Inv(RegisterBuildOpt(db, reg).0)
  {
    var db' := RegisterBuildOpt(db, reg).0;
    var id := db.nextOpt;
    FindOptFinds(db.opts, reg, id);
    assert forall i :: i in db.rows ==> db.rows[i].opt != id;
    BackfillGrows(db, reg, id, db.nextRepo);
    forall r, o | r in db'.repos && o in db'.opts ensures ExactPair(db', r, o) {
      BackfillRows(db, reg, id, db.nextRepo, r);
      if o != id {
        BackfillOthers(db, reg, id, db.nextRepo, r, o);
        assert ExactPair(db, r, o);
      }
    }
  }

  lemma InsertKeepsInv(db: Db, repo: Repo, now: int)
    requires Inv(db)
    ensures Inv(InsertRepo(db, repo, now))
  {
    if !UrlTaken(db.repos, repo.url) {
      var db' := InsertRepo(db, repo, now);
      var id := db.nextRepo;
      assert forall i :: i in db.rows ==> db.rows[i].repo != id;
      EnrollGrows(db, repo, id, now, db.nextOpt);
      forall r, o | r in db'.repos && o in db'.opts ensures ExactPair(db', r, o) {
        EnrollRows(db, repo, id, now, db.nextOpt, o);
        if r != id {
          EnrollOthers(db, repo, id, now, db.nextOpt, r, o);
          assert ExactPair(db, r, o);
        }
      }
    }
  }

  /** The transaction only rewrites rows in place. */
  ghost predicate Rewrites(db: Db, db': Db) {
    && db'.repos == db.repos && db'.opts == db.opts && db'.rows.Keys == db.rows.Keys
    && db'.nextRepo == db.nextRepo && db'.nextOpt == db.nextOpt && db'.nextRow == db.nextRow
    && (forall i :: i in db.rows ==> db'.rows[i].repo == db.rows[i].repo && db'.rows[i].opt == db.rows[i].opt)
  }

  lemma RewriteKeepsInv(db: Db, db': Db)
    requires Inv(db) && Rewrites(db, db')
    ensures Inv(db')
  {
    forall r, o | r in db'.repos && o in db'.opts ensures ExactPair(db', r, o) {
      assert RowsFor(db'.rows, r, o) == RowsFor(db.rows, r, o);
      assert ExactPair(db, r, o);
    }
  }

  lemma StatusOpsRewrite(db: Db, op: Op)
    requires !op.OpRegister? && !op.OpInsert?
    ensures Rewrites(db, Apply(db, op))
  {
    if op.OpMark? || op.OpUpdate? {
      if op.id in db.rows { assert Apply(db, op).rows.Keys == db.rows.Keys + {op.id}; }
    }
  }

  lemma ApplyKeepsInv(db: Db, op: Op)
    requires Inv(db)
    ensures Inv(Apply(db, op))
  {
    if op.OpRegister? {
      RegisterKeepsInv(db, op.reg);
    } else if op.OpInsert? {
      InsertKeepsInv(db, op.repo, op.now);
    } else {
      StatusOpsRewrite(db, op);
      RewriteKeepsInv(db, Apply(db, op));
    }
  }

  /** Every state any sequence of transactions reaches from the empty tables. */
  lemma {:induction false} ReachableInv(ops: seq<Op>)
    ensures Inv(Run(EMPTY_DB, ops))
  {
    if ops != [] {
      ReachableInv(ops[..|ops| - 1]);
      ApplyKeepsInv(Run(EMPTY_DB, ops[..|ops| - 1]), ops[|ops| - 1]);
    }
  }

  /** Registrations and insertions in any order, repeated or not, mixed with any status
      updates: an option for "all" has one row for each repository of its language, no other. */
  lemma FanOutIsExact(ops: seq<Op>, r: nat, o: nat)
    requires var db := Run(EMPTY_DB, ops); r in db.repos && o in db.opts && db.opts[o].identity.buildSystem == "all"
    ensures var db := Run(EMPTY_DB, ops);
            |RowsFor(db.rows, r, o)| ==
            if LanguagesMatch(db.repos[r].language, db.opts[o].identity.language) then 1 else 0
  {
    ReachableInv(ops);
    var db := Run(EMPTY_DB, ops);
    TestsAgreeExactly(db.opts[o].identity, db.repos[r]);
    assert ExactPair(db, r, o);
  }

  /** The same for any option and repository on which the two tests agree. */
  lemma FanOutWhereTestsAgree(ops: seq<Op>, r: nat, o: nat)
    requires var db := Run(EMPTY_DB, ops); r in db.repos && o in db.opts && TestsAgree(db.opts[o].identity, db.repos[r])
    ensures var db := Run(EMPTY_DB, ops);
            |RowsFor(db.rows, r, o)| == if CoveredAtRegister(db.opts[o].identity, db.repos[r]) then 1 else 0
  {
    ReachableInv(ops);
    assert ExactPair(Run(EMPTY_DB, ops), r, o);
  }

  /** A transaction leaves a pair that exists its option, its repository and its rows. */
  lemma PairKept(db: Db, op: Op, r: nat, o: nat)
    requires Inv(db) && r in db.repos && o in db.opts
    ensures var db' := Apply(db, op);
            && r in db'.repos && db'.repos[r] == db.repos[r] && o in db'.opts && db'.opts[o].identity == db.opts[o].identity
            && |RowsFor(db'.rows, r, o)| == |RowsFor(db.rows, r, o)|
  {
    if op.OpRegister? {
      FindOptFinds(db.opts, op.reg, db.nextOpt);
      BackfillOthers(db, op.reg, db.nextOpt, db.nextRepo, r, o);
    } else if op.OpInsert? {
      EnrollOthers(db, op.repo, db.nextRepo, op.now, db.nextOpt, r, o);
    } else {
      StatusOpsRewrite(db, op);
      assert RowsFor(Apply(db, op).rows, r, o) == RowsFor(db.rows, r, o);
    }
  }

  lemma {:induction false} PairKeptOverRun(db: Db, ops: seq<Op>, r: nat, o: nat)
    requires Inv(db) && r in db.repos && o in db.opts
    ensures var db' := Run(db, ops);
            && Inv(db')
            && r in db'.repos && db'.repos[r] == db.repos[r] && o in db'.opts && db'.opts[o].identity == db.opts[o].identity
            && |RowsFor(db'.rows, r, o)| == |RowsFor(db.rows, r, o)|
  {
    if ops != [] {
      var front := ops[..|ops| - 1];
      PairKeptOverRun(db, front, r, o);
      PairKept(Run(db, front), ops[|ops| - 1], r, o);
      ApplyKeepsInv(Run(db, front), ops[|ops| - 1]);
    }
  }

  /** The transaction that completes the pair of a repository and an option. */
  ghost predicate Completes(db: Db, op: Op, r: nat, o: nat) {
    !(r in db.repos && o in db.opts) && r in Apply(db, op).repos && o in Apply(db, op).opts
  }

  lemma CompletedPair(db: Db, op: Op, r: nat, o: nat)
    requires Inv(db) && Completes(db, op, r, o)
    ensures op.OpRegister? || op.OpInsert?
    ensures var db' := Apply(db, op);
            |RowsFor(db'.rows, r, o)| ==
            if (if op.OpRegister? then CoveredAtRegister(db'.opts[o].identity, db'.repos[r])
                else CoveredAtInsert(db'.opts[o].identity, db'.repos[r])) then 1 else 0
  {
    if op.OpRegister? {
      FindOptFinds(db.opts, op.reg, db.nextOpt);
      BackfillRows(db, op.reg, db.nextOpt, db.nextRepo, r);
    } else if op.OpInsert? {
      EnrollRows(db, op.repo, db.nextRepo, op.now, db.nextOpt, o);
    } else {
      StatusOpsRewrite(db, op);
    }
  }

  /** Which of the two came later decides, in every run and for every pair: its own test says
      whether there is a row, whatever is committed before and after. */
  lemma LaterOneDecides(before: seq<Op>, op: Op, after: seq<Op>, r: nat, o: nat)
    requires Completes(Run(EMPTY_DB, before), op, r, o)
    ensures op.OpRegister? || op.OpInsert?
    ensures var db := Run(Apply(Run(EMPTY_DB, before), op), after);
            && r in db.repos && o in db.opts
            && |RowsFor(db.rows, r, o)| ==
               if (if op.OpRegister? then CoveredAtRegister(db.opts[o].identity, db.repos[r])
                   else CoveredAtInsert(db.opts[o].identity, db.repos[r])) then 1 else 0
  {
    ReachableInv(before);
    ApplyKeepsInv(Run(EMPTY_DB, before), op);
    CompletedPair(Run(EMPTY_DB, before), op, r, o);
    PairKeptOverRun(Apply(Run(EMPTY_DB, before), op), after, r, o);
  }

  /** In any state, for an option and a repository both new to it, the two orders of registering
      and inserting give the pair the same rows exactly when the two tests agree. */
  lemma FanOutDependsOnOrder(db: Db, reg: Identity, repo: Repo, now: int)
    requires Inv(db) && FindOpt(db.opts, reg, db.nextOpt).None? && !UrlTaken(db.repos, repo.url)
    ensures var a := Apply(Apply(db, OpRegister(reg)), OpInsert(repo, now));
            var b := Apply(Apply(db, OpInsert(repo, now)), OpRegister(reg));
            |RowsFor(a.rows, db.nextRepo, db.nextOpt)| == |RowsFor(b.rows, db.nextRepo, db.nextOpt)| <==> TestsAgree(reg, repo)
  {
    RegisteredThenInserted(db, reg, repo, now);
    InsertedThenRegistered(db, reg, repo, now);
  }

  lemma RegisteredThenInserted(db: Db, reg: Identity, repo: Repo, now: int)
    requires Inv(db) && FindOpt(db.opts, reg, db.nextOpt).None? && !UrlTaken(db.repos, repo.url)
    ensures |RowsFor(Apply(Apply(db, OpRegister(reg)), OpInsert(repo, now)).rows, db.nextRepo, db.nextOpt)| ==
            if CoveredAtInsert(reg, repo) then 1 else 0
  {
    var db' := Apply(db, OpRegister(reg));
    ApplyKeepsInv(db, OpRegister(reg));
    assert db'.opts[db.nextOpt].identity == reg && db'.repos == db.repos && db'.nextRepo == db.nextRepo;
    EnrollRows(db', repo, db.nextRepo, now, db'.nextOpt, db.nextOpt);
  }

  lemma InsertedThenRegistered(db: Db, reg: Identity, repo: Repo, now: int)
    requires Inv(db) && FindOpt(db.opts, reg, db.nextOpt).None? && !UrlTaken(db.repos, repo.url)
    ensures |RowsFor(Apply(Apply(db, OpInsert(repo, now)), OpRegister(reg)).rows, db.nextRepo, db.nextOpt)| ==
            if CoveredAtRegister(reg, repo) then 1 else 0
  {
    var db' := Apply(db, OpInsert(repo, now));
    ApplyKeepsInv(db, OpInsert(repo, now));
    assert db'.opts == db.opts && db'.nextOpt == db.nextOpt && db'.repos[db.nextRepo] == repo;
    BackfillRows(db', reg, db.nextOpt, db'.nextRepo, db.nextRepo);
  }

  // --- what the two transactions write ------------------------------------------------------------

  lemma {:induction false} BackfilledRow(db: Db, reg: Identity, opt: nat, k: nat, i: nat)
    requires IdsBelow(db) && i in Backfill(db, reg, opt, k).0 && i !in db.rows
    ensures var row := Backfill(db, reg, opt, k).0[i];
            && row.repo in db.repos && row == Row(row.repo, opt, NotStarted, "", Init, "", -1, "", -1)
            && (Contains(db.repos[row.repo].buildSystem, reg.buildSystem) || reg.buildSystem == "all")
            && LanguagesMatch(db.repos[row.repo].language, reg.language)
  {
    if k > 0 {
      var (rows, next) := Backfill(db, reg, opt, k - 1);
      if i in rows { BackfilledRow(db, reg, opt, k - 1, i); }
      BackfillFresh(db, reg, opt, k - 1);
    }
  }

  lemma {:induction false} EnrolledRow(db: Db, repo: Repo, id: nat, now: int, k: nat, i: nat)
    requires IdsBelow(db) && i in Enroll(db, repo, id, now, k).0 && i !in db.rows
    ensures var row := Enroll(db, repo, id, now, k).0[i];
            && row.opt in db.opts && row == Row(id, row.opt, NotStarted, "", Init, "", -1, "", now)
            && (Contains(db.opts[row.opt].identity.buildSystem, repo.buildSystem) || db.opts[row.opt].identity.buildSystem == "all")
            && LanguagesMatch(repo.language, db.opts[row.opt].identity.language)
  {
    if k > 0 {
      var (rows, next) := Enroll(db, repo, id, now, k - 1);
      if i in rows { EnrolledRow(db, repo, id, now, k - 1, i); }
      EnrollFresh(db, repo, id, now, k - 1);
    }
  }

  /** A registration finds its identity and enables it, or adds it as an enabled option with one row
      that has not started for each repository whose build system holds the option's, or any if that
      is "all", and whose language matches. Everything else stays. */
  lemma RegisterWrites(db: Db, reg: Identity, r: nat)
    requires Inv(db) && r in db.repos
    ensures var db' := Apply(db, OpRegister(reg)); var known := exists o :: o in db.opts && db.opts[o].identity == reg;
            && db'.repos == db.repos && db'.ir == db.ir
            && (forall i :: i in db.rows ==> i in db'.rows && db'.rows[i] == db.rows[i])
            && (known ==> db'.rows == db.rows && db'.opts.Keys == db.opts.Keys
                          && forall o :: o in db.opts ==>
                               db'.opts[o] == if db.opts[o].identity == reg then BuildOpt(reg, true) else db.opts[o])
            && (!known ==>
                  && db'.opts == db.opts[db.nextOpt := BuildOpt(reg, true)]
                  && (forall i :: i in db'.rows && i !in db.rows ==>
                        db'.rows[i] == Row(db'.rows[i].repo, db.nextOpt, NotStarted, "", Init, "", -1, "", -1))
                  && |RowsFor(db'.rows, r, db.nextOpt)| ==
                     if (Contains(db.repos[r].buildSystem, reg.buildSystem) || reg.buildSystem == "all")
                        && LanguagesMatch(db.repos[r].language, reg.language) then 1 else 0)
  {
    FindOptFinds(db.opts, reg, db.nextOpt);
    if FindOpt(db.opts, reg, db.nextOpt).None? {
      BackfillGrows(db, reg, db.nextOpt, db.nextRepo);
      BackfillRows(db, reg, db.nextOpt, db.nextRepo, r);
      var rows := Backfill(db, reg, db.nextOpt, db.nextRepo).0;
      forall i | i in rows && i !in db.rows
        ensures rows[i] == Row(rows[i].repo, db.nextOpt, NotStarted, "", Init, "", -1, "", -1)
      {
        BackfilledRow(db, reg, db.nextOpt, db.nextRepo, i);
      }
    }
  }

  /** An insertion adds a repository whose URL is new, with one row that has not started for each
      option whose build system holds the repository's, or is "all", and whose language matches. */
  lemma InsertWrites(db: Db, repo: Repo, now: int, o: nat)
    requires Inv(db) && o in db.opts
    ensures var db' := Apply(db, OpInsert(repo, now)); var known := exists r :: r in db.repos && db.repos[r].url == repo.url;
            && db'.opts == db.opts && db'.ir == db.ir
            && (forall i :: i in db.rows ==> i in db'.rows && db'.rows[i] == db.rows[i])
            && (known ==> db' == db)
            && (!known ==>
                  && db'.repos == db.repos[db.nextRepo := repo]
                  && (forall i :: i in db'.rows && i !in db.rows ==>
                        db'.rows[i] == Row(db.nextRepo, db'.rows[i].opt, NotStarted, "", Init, "", -1, "", now))
                  && |RowsFor(db'.rows, db.nextRepo, o)| ==
                     if (Contains(db.opts[o].identity.buildSystem, repo.buildSystem) || db.opts[o].identity.buildSystem == "all")
                        && LanguagesMatch(repo.language, db.opts[o].identity.language) then 1 else 0)
  {
    if !UrlTaken(db.repos, repo.url) {
      EnrollGrows(db, repo, db.nextRepo, now, db.nextOpt);
      EnrollRows(db, repo, db.nextRepo, now, db.nextOpt, o);
      var rows := Enroll(db, repo, db.nextRepo, now, db.nextOpt).0;
      forall i | i in rows && i !in db.rows
        ensures rows[i] == Row(db.nextRepo, rows[i].opt, NotStarted, "", Init, "", -1, "", now)
      {
        EnrolledRow(db, repo, db.nextRepo, now, db.nextOpt, i);
      }
    }
  }

  /** Registering an identity again neither adds rows nor a second option. */
  lemma RegisterTwice(db: Db, reg: Identity)
    requires Inv(db)
    ensures var once := RegisterBuildOpt(db, reg);
            var twice := RegisterBuildOpt(once.0, reg);
            twice.0 == once.0 && twice.1 == once.1
  {
    var (once, id) := RegisterBuildOpt(db, reg);
    RegisterKeepsInv(db, reg);
    FindOptFinds(db.opts, reg, db.nextOpt);
    FindOptFinds(once.opts, reg, once.nextOpt);
    assert id in once.opts && id < once.nextOpt && once.opts[id] == BuildOpt(reg, true);
    assert FindOpt(once.opts, reg, once.nextOpt) == Some(id);
    assert once.opts[id := BuildOpt(reg, true)] == once.opts;
    assert once.(opts := once.opts[id := BuildOpt(reg, true)]) == once;
  }
}
