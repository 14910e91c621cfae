/** What a status row keeps over whole runs of transactions. */
module Lifecycle {
  import opened Wrappers
  import opened Tables
  import opened FanOut
  import opened Store
  import Blocklist

  /** What builders report: never the two initial states. */
  predicate Reportable(op: Op) {
    op.OpUpdate? ==> op.u.build != Some(Init) && op.u.clone != Some(NotStarted)
  }

  predicate AllReportable(ops: seq<Op>) {
    forall op :: op in ops ==> Reportable(op)
  }

  /** The row moved on: what it left behind it never returns to. */
  predicate MovesOn(row: Row, row': Row) {
    && row'.repo == row.repo && row'.opt == row.opt
    && (row.build != Init ==> row'.build != Init)
    && (row.clone != NotStarted ==> row'.clone != NotStarted)
    && (row.sha != "" ==> row'.sha != "")
  }

  ghost predicate AllMoveOn(db: Db, db': Db) {
    forall i :: i in db.rows ==> i in db'.rows && MovesOn(db.rows[i], db'.rows[i])
  }

  /** What a transaction makes of a row that exists. */
  function RowAfter(op: Op, i: nat, row: Row): Row {
    match op
    case OpMark(id, now) => if id == i then row.(clone := CloneProcessing, stamp := now) else row
    case OpUpdate(id, u, now) => if id == i then UpdatedRow(row, u, now) else row
    case OpFailSiblings(repo, except, msg, now) =>
      if IsInitSibling(row, i, repo, except) then row.(build := BuildFailed, buildMsg := msg, stamp := now) else row
    case _ => row
  }

  lemma ApplyRow(db: Db, op: Op, i: nat)
    requires Inv(db) && i in db.rows
    ensures i in Apply(db, op).rows && Apply(db, op).rows[i] == RowAfter(op, i, db.rows[i])
  {
    if op.OpRegister? {
      BackfillGrows(db, op.reg, db.nextOpt, db.nextRepo);
    } else if op.OpInsert? {
      EnrollGrows(db, op.repo, db.nextRepo, op.now, db.nextOpt);
    }
  }

  /** A row that appears is on a new option or of a new repository. */
  lemma NewRowOrigin(db: Db, op: Op, i: nat)
    requires Inv(db) && i !in db.rows && i in Apply(db, op).rows
    ensures db.nextOpt < Apply(db, op).nextOpt || Apply(db, op).rows[i].repo == db.nextRepo
    ensures Apply(db, op).rows[i].clone == NotStarted && Apply(db, op).rows[i].build == Init
  {
    if op.OpRegister? {
      BackfillGrows(db, op.reg, db.nextOpt, db.nextRepo);
    } else if op.OpInsert? {
      EnrollGrows(db, op.repo, db.nextRepo, op.now, db.nextOpt);
    }
  }

  lemma RowMovesOn(op: Op, i: nat, row: Row)
    requires Reportable(op)
    ensures MovesOn(row, RowAfter(op, i, row))
  {
  }

  lemma ApplyMovesOn(db: Db, op: Op)
    requires Inv(db) && Reportable(op)
    ensures AllMoveOn(db, Apply(db, op))
  {
    forall i | i in db.rows ensures i in Apply(db, op).rows && MovesOn(db.rows[i], Apply(db, op).rows[i]) {
      ApplyRow(db, op, i);
      RowMovesOn(op, i, db.rows[i]);
    }
  }

  /** A row leaves a later build state for INIT exactly through a report that says INIT. */
  lemma BackToInitExactly(db: Db, op: Op, i: nat)
    requires Inv(db) && i in db.rows && db.rows[i].build != Init
    ensures i in Apply(db, op).rows
    ensures Apply(db, op).rows[i].build == Init <==> op.OpUpdate? && op.id == i && op.u.build == Some(Init)
  {
    ApplyRow(db, op, i);
  }

  lemma {:induction false} RunKeepsInv(db: Db, ops: seq<Op>)
    requires Inv(db)
    ensures Inv(Run(db, ops))
  {
    if ops != [] {
      RunKeepsInv(db, ops[..|ops| - 1]);
      ApplyKeepsInv(Run(db, ops[..|ops| - 1]), ops[|ops| - 1]);
    }
  }

  /** Over any run: build status never returns to INIT, clone status never returns to
      NOT_STARTED, a commit sha is never cleared, and no row is lost. */
  lemma {:induction false} RunMovesOn(db: Db, ops: seq<Op>)
    requires Inv(db) && AllReportable(ops)
    ensures AllMoveOn(db, Run(db, ops))
  {
    if ops != [] {
      var front, last := ops[..|ops| - 1], ops[|ops| - 1];
      assert last in ops && AllReportable(front);
      RunMovesOn(db, front);
      RunKeepsInv(db, front);
      ApplyMovesOn(Run(db, front), last);
    }
  }

  // --- a failed build takes its repository out of dispatch -----------------------------------

  ghost predicate NoInitRow(db: Db, repo: nat) {
    forall i :: i in db.rows && db.rows[i].repo == repo ==> db.rows[i].build != Init
  }

  lemma ApplyGrows(db: Db, op: Op)
    ensures db.nextOpt <= Apply(db, op).nextOpt && db.nextRepo <= Apply(db, op).nextRepo
  {
  }

  lemma {:induction false} OptsGrow(db: Db, ops: seq<Op>)
    ensures db.nextOpt <= Run(db, ops).nextOpt && db.nextRepo <= Run(db, ops).nextRepo
  {
    if ops != [] {
      OptsGrow(db, ops[..|ops| - 1]);
      ApplyGrows(Run(db, ops[..|ops| - 1]), ops[|ops| - 1]);
    }
  }

  lemma ApplyKeepsNoInit(db: Db, op: Op, repo: nat)
    requires Inv(db) && Reportable(op) && repo < db.nextRepo && NoInitRow(db, repo)
    requires Apply(db, op).nextOpt == db.nextOpt
    ensures NoInitRow(Apply(db, op), repo)
  {
    forall i | i in Apply(db, op).rows && Apply(db, op).rows[i].repo == repo
      ensures Apply(db, op).rows[i].build != Init
    {
      if i in db.rows {
        ApplyRow(db, op, i);
        RowMovesOn(op, i, db.rows[i]);
      } else {
        NewRowOrigin(db, op, i);
      }
    }
  }

  lemma {:induction false} RunKeepsNoInit(db: Db, ops: seq<Op>, repo: nat)
    requires Inv(db) && AllReportable(ops) && repo < db.nextRepo && NoInitRow(db, repo)
    requires Run(db, ops).nextOpt == db.nextOpt
    ensures NoInitRow(Run(db, ops), repo)
  {
    if ops != [] {
      var front, last := ops[..|ops| - 1], ops[|ops| - 1];
      assert last in ops && AllReportable(front);
      OptsGrow(db, front);
      assert Run(db, ops) == Run(Run(db, front), [last]) by { OneStep(Run(db, front), last); }
      OptsGrow(Run(db, front), [last]);
      RunKeepsNoInit(db, front, repo);
      RunKeepsInv(db, front);
      ApplyKeepsNoInit(Run(db, front), last, repo);
    }
  }

  lemma OneStep(db: Db, op: Op)
    ensures Run(db, [op]) == Apply(db, op)
  {
    assert [op][..0] == [];
  }

  /** The transactions of a FAILED report for `task`, with anything committed in between. */
  function FailedReport(task: nat, u: Update, t1: int, between: seq<Op>, repo: nat, msg: string, t2: int): seq<Op> {
    [OpUpdate(task, u, t1)] + between + [OpFailSiblings(repo, task, msg, t2)]
  }

  lemma FailedReportClears(db: Db, task: nat, u: Update, t1: int, between: seq<Op>, msg: string, t2: int)
    requires Inv(db) && task in db.rows && u.build == Some(BuildFailed)
    requires Reportable(OpUpdate(task, u, t1)) && AllReportable(between)
    ensures var repo := db.rows[task].repo;
            NoInitRow(Run(db, FailedReport(task, u, t1, between, repo, msg, t2)), repo)
  {
    var repo := db.rows[task].repo;
    var first := OpUpdate(task, u, t1);
    var d1 := Apply(db, first);
    RunFailedReport(db, task, u, t1, between, repo, msg, t2);
    ApplyKeepsInv(db, first);
    ApplyRow(db, first, task);
    RunMovesOn(d1, between);
    SiblingsCleared(Run(d1, between), repo, task, msg, t2);
  }

  lemma RunFailedReport(db: Db, task: nat, u: Update, t1: int, between: seq<Op>, repo: nat, msg: string, t2: int)
    ensures Run(db, FailedReport(task, u, t1, between, repo, msg, t2)) ==
            FailSiblings(Run(Apply(db, OpUpdate(task, u, t1)), between), repo, task, msg, t2)
  {
    var first, second := OpUpdate(task, u, t1), OpFailSiblings(repo, task, msg, t2);
    RunConcat(db, [first], between);
    RunConcat(db, [first] + between, [second]);
    OneStep(db, first);
    OneStep(Run(Apply(db, first), between), second);
  }

  lemma SiblingsCleared(db: Db, repo: nat, task: nat, msg: string, now: int)
    requires task in db.rows && db.rows[task].build != Init
    ensures NoInitRow(FailSiblings(db, repo, task, msg, now), repo)
  {
  }

  /** Once a FAILED report is handled, no row of its repository is INIT or dispatchable, until a
      new option is registered. */
  lemma FailedRepoLeavesDispatch(db: Db, task: nat, u: Update, t1: int, between: seq<Op>, msg: string, t2: int, after: seq<Op>)
    requires Inv(db) && task in db.rows && u.build == Some(BuildFailed)
    requires Reportable(OpUpdate(task, u, t1)) && AllReportable(between) && AllReportable(after)
    requires var handled := Run(db, FailedReport(task, u, t1, between, db.rows[task].repo, msg, t2));
             Run(handled, after).nextOpt == handled.nextOpt
    ensures var repo := db.rows[task].repo;
            var final := Run(Run(db, FailedReport(task, u, t1, between, repo, msg, t2)), after);
            && NoInitRow(final, repo)
            && (forall list, opt, i :: Eligible(final, list, opt, i) ==> final.rows[i].repo != repo)
  {
    var repo := db.rows[task].repo;
    var ops := FailedReport(task, u, t1, between, repo, msg, t2);
    FailedReportClears(db, task, u, t1, between, msg, t2);
    RunKeepsInv(db, ops);
    OptsGrow(db, ops);
    RunKeepsNoInit(Run(db, ops), after, repo);
  }

  // --- replay --------------------------------------------------------------------------------

  /** Equal but for row timestamps. */
  ghost predicate SameButStamps(db: Db, db': Db) {
    && db'.repos == db.repos && db'.opts == db.opts && db'.ir == db.ir
    && db'.nextRepo == db.nextRepo && db'.nextOpt == db.nextOpt && db'.nextRow == db.nextRow
    && db'.rows.Keys == db.rows.Keys
    && (forall i :: i in db.rows ==> db'.rows[i] == db.rows[i].(stamp := db'.rows[i].stamp))
  }

  lemma UpdateTwice(db: Db, id: nat, u: Update, t1: int, t2: int)
    ensures var once := UpdateStatus(db, id, u, t1);
            SameButStamps(once, UpdateStatus(once, id, u, t2))
  {
  }

  /** The last record the report gives for this stage, if it names it. */
  function LastRecord(stages: seq<(string, IrRecord)>, stage: string): Option<IrRecord> {
    if stages == [] then None
    else
      var last := stages[|stages| - 1];
      if last.0 == stage then Some(last.1) else LastRecord(stages[..|stages| - 1], stage)
  }

  /** What the IR table holds after a report: the last record given for each stage of this
      build, and everything else as it was. */
  lemma {:induction false} UpsertIrValue(ir: map<(nat, string), IrRecord>, id: nat, stages: seq<(string, IrRecord)>, b: nat, stage: string)
    ensures var r, rec := UpsertIr(ir, id, stages), LastRecord(stages, stage);
            if b == id && rec.Some? then (b, stage) in r && r[(b, stage)] == rec.value
            else ((b, stage) in r <==> (b, stage) in ir) && ((b, stage) in ir ==> r[(b, stage)] == ir[(b, stage)])
  {
    if stages != [] {
      UpsertIrValue(ir, id, stages[..|stages| - 1], b, stage);
    }
  }

  /** A redelivered IR report changes nothing at all. */
  lemma UpsertIrTwice(ir: map<(nat, string), IrRecord>, id: nat, stages: seq<(string, IrRecord)>)
    ensures UpsertIr(UpsertIr(ir, id, stages), id, stages) == UpsertIr(ir, id, stages)
  {
    var once := UpsertIr(ir, id, stages);
    var twice := UpsertIr(once, id, stages);
    forall b: nat, stage: string
      ensures (b, stage) in once <==> (b, stage) in twice
      ensures (b, stage) in once ==> once[(b, stage)] == twice[(b, stage)]
    {
      UpsertIrValue(ir, id, stages, b, stage);
      UpsertIrValue(once, id, stages, b, stage);
    }
    forall key: (nat, string)
      ensures key in once <==> key in twice
      ensures key in once ==> once[key] == twice[key]
    {
      assert key == (key.0, key.1);
    }
    assert once.Keys == twice.Keys;
  }
}
