/**
 The dispatch protocol as a transition system: dispatchers, database transactions, broker
 queues, builders and crashes take turns, one atomic step each
 (backend/assemblage/coordinator/dispatch.py, backend/assemblage/db/store.py).
 */
module DispatchProtocol {
  import opened Wrappers
  import opened Tables
  import opened FanOut
  import opened Store
  import opened Lifecycle
  import opened DispatchLog
  import opened CloneUrl
  import opened BlocklistFilter
  import Blocklist
  import Text

  /** The message put on a build queue, without its two timestamps. */
  datatype BuildTask = BuildTask(
    taskId: nat, optId: nat, repoId: nat, name: string, url: string, buildSystem: string, flag: string)

  function TaskOf(c: Candidate): BuildTask {
    BuildTask(c.taskId, c.optId, c.repoId, c.name, PatchUrl(c.url), c.buildSystem, c.flag)
  }

  /** Where one dispatcher stands: nothing in hand; a row selected; inside publish(); confirmed
      but not yet marked. */
  datatype Phase =
    | Idle
    | Chosen(c: Candidate, list: Option<Blocklist.Blocklist>)
    | Publishing(c: Candidate, landed: bool)
    | Unmarked(c: Candidate)

  /** `disp` holds the running dispatchers by option, `taken` the tasks some builder received. */
  datatype Sys = Sys(
    db: Db, list: Option<Blocklist.Blocklist>, disp: map<nat, Phase>, queues: map<nat, seq<BuildTask>>,
    taken: set<nat>, log: seq<Event>)

  const START := Sys(EMPTY_DB, None, map[], map[], {}, [])

  datatype Action =
    | StartDispatcher(opt: nat)
    | Select(opt: nat, task: nat)
    | CallPublish(opt: nat)
    | QueueCopy(opt: nat)
    | PublishReturns(opt: nat)
    | PublishRaises(opt: nat)
    | MarkCommits(opt: nat, now: int)
    | MarkFails(opt: nat)
    | ThreadCrash(opt: nat)
    | ProcessCrash
    | SetList(list: Option<Blocklist.Blocklist>)
    | Deliver(opt: nat, k: nat, acked: bool)
    | Commit(op: Op)

  function QueueOf(s: Sys, opt: nat): seq<BuildTask> {
    if opt in s.queues then s.queues[opt] else []
  }

  /** Reports come from builders, which only know tasks they took off a queue. */
  predicate FromOutside(op: Op, taken: set<nat>) {
    match op
    case OpRegister(_) => true
    case OpInsert(_, _) => true
    case OpMark(_, _) => false
    case OpUpdate(id, u, _) => id in taken && Reportable(op) && u.clone != Some(CloneProcessing)
    case OpFailSiblings(_, except, _, _) => except in taken
    case OpIr(id, _) => id in taken
  }

  /** The dispatcher that moves, once it has selected a row. */
  function Mover(a: Action): Option<nat> {
    match a
    case CallPublish(opt) => Some(opt)
    case QueueCopy(opt) => Some(opt)
    case PublishReturns(opt) => Some(opt)
    case PublishRaises(opt) => Some(opt)
    case MarkCommits(opt, _) => Some(opt)
    case MarkFails(opt) => Some(opt)
    case ThreadCrash(opt) => Some(opt)
    case _ => None
  }

  predicate CanMove(p: Phase, a: Action) {
    match a
    case CallPublish(_) => p.Chosen?
    case QueueCopy(_) => p.Publishing?
    case PublishReturns(_) => p.Publishing? && p.landed
    case PublishRaises(_) => p.Publishing?
    case MarkCommits(_, _) => p.Unmarked?
    case MarkFails(_) => p.Unmarked?
    case ThreadCrash(_) => true
    case _ => false
  }

  function Moved(p: Phase, a: Action): Phase
    requires CanMove(p, a)
  {
    match a
    case CallPublish(_) => Publishing(p.c, false)
    case QueueCopy(_) => Publishing(p.c, true)
    case PublishReturns(_) => Unmarked(p.c)
    case _ => Idle
  }

  predicate Holding(p: Phase) { p.Publishing? || p.Unmarked? }

  function MoveEvent(p: Phase, a: Action): Event
    requires CanMove(p, a)
  {
    match a
    case CallPublish(opt) => Handed(p.c.taskId, opt, p.c.url, p.list)
    case QueueCopy(opt) => Landed(p.c.taskId, opt)
    case PublishReturns(opt) => Confirmed(p.c.taskId, opt)
    case PublishRaises(_) => Raised(p.c.taskId)
    case MarkCommits(_, _) => Marked(p.c.taskId)
    case MarkFails(_) => MarkLost(p.c.taskId)
    case _ => Crashed(if Holding(p) then {p.c.taskId} else {})
  }

  ghost predicate Enabled(s: Sys, a: Action) {
    if Mover(a).Some? then Mover(a).value in s.disp && CanMove(s.disp[Mover(a).value], a)
    else
      match a
      case StartDispatcher(opt) => opt in s.db.opts
      case Select(opt, task) =>
        opt in s.disp && s.disp[opt].Idle? && Eligible(s.db, s.list, opt, task) && opt in s.db.opts
      case Deliver(opt, k, _) => k < |QueueOf(s, opt)|
      case Commit(op) => FromOutside(op, s.taken)
      case _ => true
  }

  /** The tasks handed over and not settled. */
  function InHand(disp: map<nat, Phase>): set<nat> {
    set o | o in disp && Holding(disp[o]) :: disp[o].c.taskId
  }

  ghost function DispAfter(s: Sys, a: Action): map<nat, Phase>
    requires Enabled(s, a)
  {
    if Mover(a).Some? then s.disp[Mover(a).value := Moved(s.disp[Mover(a).value], a)]
    else
      match a
      case StartDispatcher(opt) => if opt in s.disp then s.disp else s.disp[opt := Idle]
      case Select(opt, task) => s.disp[opt := Chosen(CandidateOf(s.db, task), s.list)]
      case ProcessCrash => map[]
      case _ => s.disp
  }

  ghost function EventsOf(s: Sys, a: Action): seq<Event>
    requires Enabled(s, a)
  {
    if Mover(a).Some? then [MoveEvent(s.disp[Mover(a).value], a)]
    else if a.ProcessCrash? then [Crashed(InHand(s.disp))]
    else []
  }

  /** The transaction an action commits, if any. */
  ghost function OpOf(s: Sys, a: Action): Option<Op>
    requires Enabled(s, a)
  {
    match a
    case MarkCommits(opt, now) => Some(OpMark(s.disp[opt].c.taskId, now))
    case Commit(op) => Some(op)
    case _ => None
  }

  ghost function DbAfter(s: Sys, a: Action): Db
    requires Enabled(s, a)
  {
    match OpOf(s, a)
    case Some(op) => Tables.Apply(s.db, op)
    case None => s.db
  }

  ghost function QueuesAfter(s: Sys, a: Action): map<nat, seq<BuildTask>>
    requires Enabled(s, a)
  {
    match a
    case QueueCopy(opt) => s.queues[opt := QueueOf(s, opt) + [TaskOf(s.disp[opt].c)]]
    case Deliver(opt, k, acked) =>
      var q := QueueOf(s, opt);
      if acked then s.queues[opt := q[..k] + q[k + 1..]] else s.queues
    case _ => s.queues
  }

  ghost function TakenAfter(s: Sys, a: Action): set<nat>
    requires Enabled(s, a)
  {
    match a
    case Deliver(opt, k, _) => s.taken + {QueueOf(s, opt)[k].taskId}
    case _ => s.taken
  }

  ghost function Apply(s: Sys, a: Action): Sys
    requires Enabled(s, a)
  {
    Sys(DbAfter(s, a), if a.SetList? then a.list else s.list, DispAfter(s, a), QueuesAfter(s, a),
        TakenAfter(s, a), s.log + EventsOf(s, a))
  }

  /** An action that is not enabled does nothing, so every sequence of actions is a run. */
  ghost function Step(s: Sys, a: Action): Sys {
    if Enabled(s, a) then Apply(s, a) else s
  }

  ghost function Exec(acts: seq<Action>): Sys {
    if acts == [] then START else Step(Exec(acts[..|acts| - 1]), acts[|acts| - 1])
  }

  // --- the invariant ------------------------------------------------------------------------

  /** A candidate still describes its row, its repository and its option. */
  ghost predicate Current(db: Db, c: Candidate) {
    && c.taskId in db.rows && db.rows[c.taskId].repo in db.repos && db.rows[c.taskId].opt in db.opts
    && c == CandidateOf(db, c.taskId)
  }

  ghost predicate NotBlocked(list: Option<Blocklist.Blocklist>, url: string) {
    list.Some? ==> !Blocklist.LikeBlocked(list.value, url)
  }

  ghost predicate DispatcherOk(s: Sys, opt: nat)
    requires opt in s.disp
  {
    var p := s.disp[opt];
    && (!p.Idle? ==> Current(s.db, p.c) && p.c.optId == opt)
    && (p.Chosen? ==> NotBlocked(p.list, p.c.url))
  }

  predicate About(p: Phase, t: nat) { !p.Idle? && p.c.taskId == t }

  /** What the dispatcher of option `opt` is doing with task `t`. */
  function PhaseIn(disp: map<nat, Phase>, opt: nat, t: nat): Phase {
    if opt in disp && About(disp[opt], t) then disp[opt] else Idle
  }

  /** What the log may say of a task, given what its dispatcher is doing. */
  predicate StageFits(p: Phase, st: Stage, opt: nat) {
    match p
    case Idle => st.Fresh? || st.Retry? || st == Done(opt)
    case Chosen(_, _) => st.Fresh? || st.Retry?
    case Publishing(_, landed) => st == if landed then OnQueue(opt) else HandedOver(opt)
    case Unmarked(_) => st == Settled(opt)
  }

  ghost predicate HasLanded(log: seq<Event>, t: nat, opt: nat) {
    Landed(t, opt) in log
  }

  ghost predicate TaskOk(s: Sys, t: nat) {
    var st := StageOf(s.log, t);
    if t !in s.db.rows then st.Fresh? && t !in s.taken
    else
      var row := s.db.rows[t];
      && StageFits(PhaseIn(s.disp, row.opt, t), st, row.opt)
      && (st.Done? ==> row.clone != NotStarted)
      && (row.clone == CloneProcessing ==> st.Done?)
      && (t in s.taken || row.clone != NotStarted || Seen(st) ==> HasLanded(s.log, t, row.opt))
  }

  /** A queued message is the current description of a row of the queue's own option. */
  ghost predicate QueuedOk(s: Sys, opt: nat, m: BuildTask) {
    && m.optId == opt && m.taskId in s.db.rows
    && s.db.rows[m.taskId].repo in s.db.repos && s.db.rows[m.taskId].opt in s.db.opts
    && m == TaskOf(CandidateOf(s.db, m.taskId))
    && HasLanded(s.log, m.taskId, opt)
  }

  ghost predicate DispatchersOk(s: Sys) { forall o :: o in s.disp ==> DispatcherOk(s, o) }

  ghost predicate TasksOk(s: Sys) { forall t: nat :: TaskOk(s, t) }

  ghost predicate QueuesOk(s: Sys) { forall o, m :: o in s.queues && m in s.queues[o] ==> QueuedOk(s, o, m) }

  ghost predicate LogOk(log: seq<Event>) {
    forall e :: e in log && e.Handed? ==> NotBlocked(e.list, e.url)
  }

  ghost predicate SysInv(s: Sys) {
    Inv(s.db) && DispatchersOk(s) && TasksOk(s) && QueuesOk(s) && LogOk(s.log)
  }

  // --- database steps -----------------------------------------------------------------------

  ghost predicate EntitiesKept(db: Db, db': Db) {
    && (forall r :: r in db.repos ==> r in db'.repos && db'.repos[r] == db.repos[r])
    && (forall o :: o in db.opts ==> o in db'.opts && db'.opts[o].identity == db.opts[o].identity)
  }

  lemma OpKeepsEntities(db: Db, op: Op)
    requires IdsBelow(db)
    ensures EntitiesKept(db, Tables.Apply(db, op))
  {
    if op.OpRegister? { FindOptFinds(db.opts, op.reg, db.nextOpt); }
  }

  ghost predicate RowKept(db: Db, db': Db, t: nat) {
    && t in db.rows && t in db'.rows
    && db'.rows[t].opt == db.rows[t].opt && db'.rows[t].repo == db.rows[t].repo
  }

  lemma OpKeepsRow(db: Db, op: Op, t: nat)
    requires Inv(db) && t in db.rows
    ensures RowKept(db, Tables.Apply(db, op), t)
  {
    ApplyRow(db, op, t);
  }

  lemma StepKeepsDb(s: Sys, a: Action)
    requires Enabled(s, a) && Inv(s.db)
    ensures Inv(Apply(s, a).db) && EntitiesKept(s.db, Apply(s, a).db)
    ensures forall t: nat :: t in s.db.rows ==> RowKept(s.db, Apply(s, a).db, t)
  {
    if OpOf(s, a).Some? {
      var op := OpOf(s, a).value;
      ApplyKeepsInv(s.db, op);
      OpKeepsEntities(s.db, op);
      forall t: nat | t in s.db.rows ensures RowKept(s.db, Apply(s, a).db, t) { OpKeepsRow(s.db, op, t); }
    }
  }

  lemma StillCurrent(db: Db, db': Db, t: nat)
    requires RowKept(db, db', t) && EntitiesKept(db, db') && db.rows[t].repo in db.repos && db.rows[t].opt in db.opts
    ensures db'.rows[t].repo in db'.repos && db'.rows[t].opt in db'.opts && CandidateOf(db', t) == CandidateOf(db, t)
  {
  }

  // --- dispatchers --------------------------------------------------------------------------

  lemma DispatcherKept(s: Sys, a: Action, o: nat)
    requires Enabled(s, a) && SysInv(s) && o in Apply(s, a).disp
    ensures DispatcherOk(Apply(s, a), o)
  {
    var s' := Apply(s, a);
    StepKeepsDb(s, a);
    assert o in s.disp ==> DispatcherOk(s, o);
    if !s'.disp[o].Idle? {
      if a.Select? && a.opt == o {
        assert Current(s.db, s'.disp[o].c);
      } else {
        var c := s'.disp[o].c;
        assert s.disp[o].c == c;
        StillCurrent(s.db, s'.db, c.taskId);
      }
    }
  }

  // --- queues -------------------------------------------------------------------------------

  lemma QueuedKept(s: Sys, a: Action, o: nat, m: BuildTask)
    requires Enabled(s, a) && SysInv(s)
    requires o in Apply(s, a).queues && m in Apply(s, a).queues[o]
    ensures QueuedOk(Apply(s, a), o, m)
  {
    var s' := Apply(s, a);
    StepKeepsDb(s, a);
    if o in s.queues && m in s.queues[o] {
      assert QueuedOk(s, o, m);
      StillCurrent(s.db, s'.db, m.taskId);
    } else {
      assert a.QueueCopy? && a.opt == o && m == TaskOf(s.disp[o].c);
      assert DispatcherOk(s, o);
    }
  }

  // --- tasks --------------------------------------------------------------------------------

  lemma LogStep(s: Sys, a: Action, t: nat)
    requires Enabled(s, a)
    ensures StageOf(s.log + EventsOf(s, a), t) ==
            if EventsOf(s, a) == [] then StageOf(s.log, t) else Next(EventsOf(s, a)[0], t, StageOf(s.log, t))
  {
    if EventsOf(s, a) == [] {
      assert s.log + EventsOf(s, a) == s.log;
    } else {
      StageAppend(s.log, EventsOf(s, a)[0], t);
    }
  }

  /** Only the dispatcher of its row's option ever holds a task. */
  ghost predicate HeldOnlyBy(disp: map<nat, Phase>, opt: nat, t: nat) {
    forall o :: o in disp && About(disp[o], t) ==> o == opt
  }

  lemma OneHolder(s: Sys, t: nat)
    requires DispatchersOk(s) && t in s.db.rows
    ensures HeldOnlyBy(s.disp, s.db.rows[t].opt, t)
  {
    forall o | o in s.disp && About(s.disp[o], t) ensures o == s.db.rows[t].opt {
      assert DispatcherOk(s, o);
    }
  }

  lemma NoHolder(s: Sys, t: nat)
    requires DispatchersOk(s) && t !in s.db.rows
    ensures forall o :: o in s.disp ==> !About(s.disp[o], t)
  {
    forall o | o in s.disp ensures !About(s.disp[o], t) {
      assert DispatcherOk(s, o);
    }
  }

  /** A dispatcher's step takes its own task from stage to stage. */
  lemma OwnStage(p: Phase, a: Action, st: Stage)
    requires CanMove(p, a) && Mover(a).Some? && !p.Idle? && StageFits(p, st, Mover(a).value)
    ensures var st' := Next(MoveEvent(p, a), p.c.taskId, st);
            && StageFits(Moved(p, a), st', Mover(a).value)
            && (st'.Done? <==> a.MarkCommits? || st.Done?)
  {
  }

  /** And leaves every other task at its stage. */
  lemma OtherStage(p: Phase, a: Action, t: nat, st: Stage)
    requires CanMove(p, a) && !About(p, t)
    ensures Next(MoveEvent(p, a), t, st) == st
  {
  }

  predicate Fits(disp: map<nat, Phase>, log: seq<Event>, opt: nat, t: nat) {
    StageFits(PhaseIn(disp, opt, t), StageOf(log, t), opt)
  }

  /** The action commits the mark of task `t`. */
  predicate Marks(s: Sys, a: Action, t: nat) {
    a.MarkCommits? && a.opt in s.disp && About(s.disp[a.opt], t)
  }

  lemma StageAfterMove(s: Sys, a: Action, opt: nat, t: nat)
    requires Enabled(s, a) && Mover(a).Some?
    requires HeldOnlyBy(s.disp, opt, t) && Fits(s.disp, s.log, opt, t)
    ensures Fits(DispAfter(s, a), s.log + EventsOf(s, a), opt, t)
    ensures StageOf(s.log + EventsOf(s, a), t).Done? <==> StageOf(s.log, t).Done? || Marks(s, a, t)
  {
    var p, st := s.disp[Mover(a).value], StageOf(s.log, t);
    LogStep(s, a, t);
    if About(p, t) {
      OwnStage(p, a, st);
    } else {
      OtherStage(p, a, t, st);
    }
  }

  lemma StageAfterCrash(s: Sys, opt: nat, t: nat)
    requires HeldOnlyBy(s.disp, opt, t) && Fits(s.disp, s.log, opt, t)
    ensures Fits(map[], s.log + [Crashed(InHand(s.disp))], opt, t)
    ensures StageOf(s.log + [Crashed(InHand(s.disp))], t).Done? <==> StageOf(s.log, t).Done?
  {
    StageAppend(s.log, Crashed(InHand(s.disp)), t);
    if t in InHand(s.disp) {
      var o :| o in s.disp && Holding(s.disp[o]) && s.disp[o].c.taskId == t;
      assert About(s.disp[o], t);
    }
  }

  lemma StageAfterSelect(s: Sys, a: Action, opt: nat, t: nat)
    requires Enabled(s, a) && a.Select? && t in s.db.rows && s.db.rows[t].opt == opt
    requires Fits(s.disp, s.log, opt, t) && (StageOf(s.log, t).Done? ==> s.db.rows[t].clone != NotStarted)
    ensures Fits(DispAfter(s, a), s.log + EventsOf(s, a), opt, t)
    ensures StageOf(s.log + EventsOf(s, a), t) == StageOf(s.log, t)
  {
    LogStep(s, a, t);
  }

  lemma StageKept(s: Sys, a: Action, t: nat)
    requires Enabled(s, a) && DispatchersOk(s) && t in s.db.rows && TaskOk(s, t)
    ensures Fits(DispAfter(s, a), s.log + EventsOf(s, a), s.db.rows[t].opt, t)
    ensures StageOf(s.log + EventsOf(s, a), t).Done? <==> StageOf(s.log, t).Done? || Marks(s, a, t)
  {
    var opt := s.db.rows[t].opt;
    OneHolder(s, t);
    if Mover(a).Some? {
      StageAfterMove(s, a, opt, t);
    } else if a.ProcessCrash? {
      StageAfterCrash(s, opt, t);
    } else if a.Select? {
      StageAfterSelect(s, a, opt, t);
    } else {
      LogStep(s, a, t);
    }
  }

  /** Which transactions touch the clone status of a row. */
  lemma OutsideClone(op: Op, t: nat, row: Row, taken: set<nat>)
    requires FromOutside(op, taken)
    ensures var after := RowAfter(op, t, row).clone;
            && (row.clone != NotStarted ==> after != NotStarted)
            && (after != row.clone ==> t in taken && after != CloneProcessing)
  {
  }

  function CloneNow(s: Sys, a: Action, t: nat, row: Row): CloneStatus {
    if Marks(s, a, t) then CloneProcessing
    else if a.Commit? then RowAfter(a.op, t, row).clone
    else row.clone
  }

  lemma MarkIs(s: Sys, opt: nat, now: int)
    requires Enabled(s, MarkCommits(opt, now))
    ensures DbAfter(s, MarkCommits(opt, now)) == MarkProcessing(s.db, s.disp[opt].c.taskId, now)
  {
  }

  lemma MarkClone(db: Db, id: nat, now: int, t: nat)
    requires t in db.rows
    ensures var db' := MarkProcessing(db, id, now);
            t in db'.rows && db'.rows[t].clone == if id == t then CloneProcessing else db.rows[t].clone
  {
  }

  lemma CommitClone(s: Sys, op: Op, t: nat)
    requires Enabled(s, Commit(op)) && Inv(s.db) && t in s.db.rows
    ensures var db' := DbAfter(s, Commit(op)); t in db'.rows && db'.rows[t] == RowAfter(op, t, s.db.rows[t])
  {
    ApplyRow(s.db, op, t);
  }

  lemma CloneAfter(s: Sys, a: Action, t: nat)
    requires Enabled(s, a) && Inv(s.db) && t in s.db.rows
    ensures t in DbAfter(s, a).rows
    ensures DbAfter(s, a).rows[t].clone == CloneNow(s, a, t, s.db.rows[t])
  {
    if a.Commit? {
      CommitClone(s, a.op, t);
    } else if a.MarkCommits? {
      MarkIs(s, a.opt, a.now);
      MarkClone(s.db, s.disp[a.opt].c.taskId, a.now, t);
    } else {
      assert DbAfter(s, a) == s.db;
    }
  }

  lemma CloneKept(s: Sys, a: Action, t: nat, row: Row)
    requires Enabled(s, a)
    ensures var after := CloneNow(s, a, t, row);
            if Marks(s, a, t) then after == CloneProcessing
            else (row.clone != NotStarted ==> after != NotStarted)
                 && (after != row.clone ==> t in s.taken && after != CloneProcessing)
  {
    if a.Commit? { OutsideClone(a.op, t, row, s.taken); }
  }

  ghost predicate SeenNow(taken: set<nat>, log: seq<Event>, clone: CloneStatus, t: nat) {
    t in taken || clone != NotStarted || Seen(StageOf(log, t))
  }

  predicate Seen(st: Stage) { st.OnQueue? || st.Settled? }

  lemma BecomesSeen(e: Event, t: nat, st: Stage)
    requires Seen(Next(e, t, st)) && !Seen(st)
    ensures e == Landed(t, Next(e, t, st).opt)
  {
  }

  lemma StageSeen(s: Sys, a: Action, t: nat)
    requires Enabled(s, a) && DispatchersOk(s) && t in s.db.rows && TaskOk(s, t)
    requires Seen(StageOf(s.log + EventsOf(s, a), t))
    ensures HasLanded(s.log + EventsOf(s, a), t, s.db.rows[t].opt)
  {
    LogStep(s, a, t);
    StageKept(s, a, t);
    var e := EventsOf(s, a);
    if !Seen(StageOf(s.log, t)) {
      BecomesSeen(e[0], t, StageOf(s.log, t));
      assert e[0] in s.log + e;
    }
  }

  lemma DeliveredSeen(s: Sys, a: Action, t: nat)
    requires Enabled(s, a) && QueuesOk(s) && t in TakenAfter(s, a) && t !in s.taken
    ensures t in s.db.rows && HasLanded(s.log, t, s.db.rows[t].opt)
  {
    var m := QueueOf(s, a.opt)[a.k];
    assert m in s.queues[a.opt] && QueuedOk(s, a.opt, m);
  }

  lemma SeenKept(s: Sys, a: Action, t: nat)
    requires Enabled(s, a) && SysInv(s) && t in s.db.rows && TaskOk(s, t)
    requires SeenNow(TakenAfter(s, a), s.log + EventsOf(s, a), CloneNow(s, a, t, s.db.rows[t]), t)
    ensures HasLanded(s.log + EventsOf(s, a), t, s.db.rows[t].opt)
  {
    var st := StageOf(s.log + EventsOf(s, a), t);
    CloneKept(s, a, t, s.db.rows[t]);
    if Seen(st) {
      StageSeen(s, a, t);
    } else if t in TakenAfter(s, a) && t !in s.taken {
      DeliveredSeen(s, a, t);
    } else if Marks(s, a, t) {
      OneHolder(s, t);
    }
  }

  lemma TaskKept(s: Sys, a: Action, t: nat)
    requires Enabled(s, a) && SysInv(s) && t in s.db.rows && TaskOk(s, t)
    ensures TaskOk(Apply(s, a), t)
  {
    StepKeepsDb(s, a);
    assert RowKept(s.db, Apply(s, a).db, t);
    StageKept(s, a, t);
    CloneAfter(s, a, t);
    CloneKept(s, a, t, s.db.rows[t]);
    if SeenNow(TakenAfter(s, a), s.log + EventsOf(s, a), CloneNow(s, a, t, s.db.rows[t]), t) { SeenKept(s, a, t); }
  }

  lemma NewTask(s: Sys, a: Action, t: nat)
    requires Enabled(s, a) && SysInv(s) && t !in s.db.rows && TaskOk(s, t)
    ensures TaskOk(Apply(s, a), t)
  {
    NoHolder(s, t);
    NewTaskFresh(s, a, t);
    NewTaskUnheld(s, a, t);
    NewTaskUnseen(s, a, t);
    if OpOf(s, a).Some? && t in DbAfter(s, a).rows { NewRowOrigin(s.db, OpOf(s, a).value, t); }
  }

  lemma NewTaskFresh(s: Sys, a: Action, t: nat)
    requires Enabled(s, a) && t !in s.db.rows && StageOf(s.log, t).Fresh?
    requires forall o :: o in s.disp ==> !About(s.disp[o], t)
    ensures StageOf(s.log + EventsOf(s, a), t).Fresh?
  {
    LogStep(s, a, t);
    EventMisses(s, a, t);
  }

  lemma EventMisses(s: Sys, a: Action, t: nat)
    requires Enabled(s, a) && forall o :: o in s.disp ==> !About(s.disp[o], t)
    ensures EventsOf(s, a) != [] ==> Next(EventsOf(s, a)[0], t, Fresh) == Fresh
  {
    if Mover(a).Some? {
      OtherStage(s.disp[Mover(a).value], a, t, Fresh);
    } else {
      NotInHand(s.disp, t);
    }
  }

  lemma NotInHand(disp: map<nat, Phase>, t: nat)
    requires forall o :: o in disp ==> !About(disp[o], t)
    ensures t !in InHand(disp)
  {
  }

  lemma NewTaskUnheld(s: Sys, a: Action, t: nat)
    requires Enabled(s, a) && t !in s.db.rows
    requires forall o :: o in s.disp ==> !About(s.disp[o], t)
    ensures forall o :: o in DispAfter(s, a) ==> !About(DispAfter(s, a)[o], t)
  {
  }

  lemma NewTaskUnseen(s: Sys, a: Action, t: nat)
    requires Enabled(s, a) && QueuesOk(s) && t !in s.db.rows && t !in s.taken
    ensures t !in TakenAfter(s, a)
  {
    if t in TakenAfter(s, a) { DeliveredSeen(s, a, t); assert false; }
  }

  // --- every run ----------------------------------------------------------------------------

  lemma LogKept(s: Sys, a: Action)
    requires Enabled(s, a) && SysInv(s)
    ensures LogOk(Apply(s, a).log)
  {
    if Mover(a).Some? { assert DispatcherOk(s, Mover(a).value); }
  }

  lemma StepKeepsInv(s: Sys, a: Action)
    requires SysInv(s)
    ensures SysInv(Step(s, a))
  {
    if Enabled(s, a) {
      var s' := Apply(s, a);
      StepKeepsDb(s, a);
      LogKept(s, a);
      forall o | o in s'.disp ensures DispatcherOk(s', o) { DispatcherKept(s, a, o); }
      forall o, m | o in s'.queues && m in s'.queues[o] ensures QueuedOk(s', o, m) { QueuedKept(s, a, o, m); }
      forall t: nat ensures TaskOk(s', t) {
        assert TaskOk(s, t);
        if t in s.db.rows { TaskKept(s, a, t); } else { NewTask(s, a, t); }
      }
    }
  }

  lemma {:induction false} ExecInv(acts: seq<Action>)
    ensures SysInv(Exec(acts))
  {
    if acts == [] {
      ReachableInv([]);
    } else {
      ExecInv(acts[..|acts| - 1]);
      StepKeepsInv(Exec(acts[..|acts| - 1]), acts[|acts| - 1]);
    }
  }

  /** In every run, a task is handed to publish() again only if publish() of it raised, its mark
      did not commit, or its dispatcher crashed in between. */
  lemma HandedAgainOnlyAfterFailure(acts: seq<Action>, t: nat, i: nat, j: nat)
    requires i < j < |Exec(acts).log| && IsHanded(Exec(acts).log[i], t) && IsHanded(Exec(acts).log[j], t)
    ensures exists k :: i < k < j && Fails(Exec(acts).log[k], t)
  {
    ExecInv(acts);
    assert TaskOk(Exec(acts), t);
    HandedAgainAfterFailure(Exec(acts).log, t, i, j);
  }

  /** And never again once it was marked. */
  lemma MarkedNeverHandedAgain(acts: seq<Action>, t: nat, i: nat, j: nat)
    requires i < j < |Exec(acts).log| && Exec(acts).log[i] == Marked(t)
    ensures !IsHanded(Exec(acts).log[j], t)
  {
    ExecInv(acts);
    assert TaskOk(Exec(acts), t);
    MarkedStaysDone(Exec(acts).log, t, i, j);
    StageAt(Exec(acts).log, t, j);
  }

  /** In every run, a row in clone PROCESSING was handed over, queued on its own option's queue,
      confirmed and marked, in this order. */
  lemma ProcessingWasConfirmed(acts: seq<Action>, t: nat)
    requires t in Exec(acts).db.rows && Exec(acts).db.rows[t].clone == CloneProcessing
    ensures exists h, l, c, m :: FullDispatch(Exec(acts).log, t, Exec(acts).db.rows[t].opt, h, l, c, m)
  {
    ExecInv(acts);
    var s := Exec(acts);
    assert TaskOk(s, t);
    DoneWasDispatched(s.log, t, s.db.rows[t].opt);
  }

  /** In every run, a row whose clone status has moved was queued for its own option first. */
  lemma StartedWasQueued(acts: seq<Action>, t: nat)
    requires t in Exec(acts).db.rows && Exec(acts).db.rows[t].clone != NotStarted
    ensures Landed(t, Exec(acts).db.rows[t].opt) in Exec(acts).log
  {
    ExecInv(acts);
    assert TaskOk(Exec(acts), t);
  }

  /** In every run, what is on a build queue is the queue's own option's work, as its rows
      describe it. */
  lemma QueueHoldsOwnTasks(acts: seq<Action>, o: nat, m: BuildTask)
    requires o in Exec(acts).queues && m in Exec(acts).queues[o]
    ensures QueuedOk(Exec(acts), o, m)
  {
    ExecInv(acts);
  }

  /** In every run, what was handed over was not blocked by the list in force at its selection. */
  lemma HandedWasNotBlocked(acts: seq<Action>, e: Event)
    requires e in Exec(acts).log && e.Handed?
    ensures NotBlocked(e.list, e.url)
  {
    ExecInv(acts);
  }

  /** So no repository the list names at that moment is handed over, for either stored URL shape
      and names without `.git`. */
  lemma HandedWasNotListed(acts: seq<Action>, e: Event, fixed: seq<string>, owner: string, name: string)
    requires e in Exec(acts).log && e.Handed? && e.list.Some? && Blocklist.WellFormed(e.list.value)
    requires UrlShape(fixed) && GitHubName(owner) && GitHubName(name) && !Text.EndsWith(name, Blocklist.GIT_SUFFIX)
    requires e.url == StoredUrl(fixed, owner, name)
    ensures !Blocklist.UrlListed(e.list.value, e.url)
  {
    HandedWasNotBlocked(acts, e);
    LikeBlockedExactly(e.list.value, fixed, owner, name);
    UrlListedExactly(e.list.value, fixed, owner, name);
  }

  // --- what a message says ------------------------------------------------------------------------

  /** The fields of a message, against the row, the repository and the option it is for. */
  ghost predicate Carries(db: Db, m: BuildTask, t: nat) {
    && t in db.rows && db.rows[t].repo in db.repos && db.rows[t].opt in db.opts
    && m.taskId == t && m.optId == db.rows[t].opt && m.repoId == db.rows[t].repo
    && m.name == db.repos[db.rows[t].repo].name
    && m.buildSystem == db.repos[db.rows[t].repo].buildSystem
    && m.flag == db.opts[db.rows[t].opt].identity.flag
    && CloneUrlOf(db.repos[db.rows[t].repo].url, m.url)
  }

  /** The URL to clone is the repository's own for both stored shapes, exactly when the owner does
      not end in `repos` and neither name holds `api.`. */
  ghost predicate CloneUrlOf(stored: string, url: string) {
    forall owner: string, name: string :: '/' !in owner && '/' !in name && IsStoredAs(stored, owner, name) ==>
      (url == GitUrl(owner + ['/'] + name) <==> PlainPath(owner, name))
  }

  predicate IsStoredAs(stored: string, owner: string, name: string) {
    stored == ApiUrl(owner + ['/'] + name) || stored == GitUrl(owner + ['/'] + name)
  }

  predicate PlainPath(owner: string, name: string) {
    !Text.EndsWith(owner, "repos") && !Text.Contains(owner + ['/'] + name, "api.")
  }

  lemma PatchedIsCloneUrl(stored: string)
    ensures CloneUrlOf(stored, PatchUrl(stored))
  {
    forall owner: string, name: string | '/' !in owner && '/' !in name && IsStoredAs(stored, owner, name)
      ensures PatchUrl(stored) == GitUrl(owner + ['/'] + name) <==> PlainPath(owner, name)
    {
      StoredUrlPatches(owner, name);
      StoredCloneUrlPatches(owner, name);
    }
  }

  lemma TaskCarries(db: Db, t: nat)
    requires t in db.rows && db.rows[t].repo in db.repos && db.rows[t].opt in db.opts
    ensures Carries(db, TaskOf(CandidateOf(db, t)), t)
  {
    PatchedIsCloneUrl(db.repos[db.rows[t].repo].url);
  }

  /** In every run, each message on a queue carries the ids of its row, its repository's name and build
      system, its option's flag, and the URL to clone the repository from; and its row is the
      queue's own option's. */
  lemma QueuedMessageCarries(acts: seq<Action>, o: nat, m: BuildTask)
    requires o in Exec(acts).queues && m in Exec(acts).queues[o]
    ensures Carries(Exec(acts).db, m, m.taskId) && m.optId == o
  {
    QueueHoldsOwnTasks(acts, o, m);
    TaskCarries(Exec(acts).db, m.taskId);
  }
}
