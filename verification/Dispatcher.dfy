/** One dispatcher's loop body, the starvation flags and the manager that starts dispatchers
    (backend/assemblage/coordinator/dispatch.py). */
module Dispatcher {
  import opened Wrappers
  import opened Tables
  import opened FanOut
  import opened Store
  import opened DispatchProtocol
  import P = Publisher
  import Blocklist

  const DEPTH_THRESHOLD := 10

  class StarvationSignals {
    var known: set<nat>
    var flagged: set<nat>

    ghost predicate Valid()
      reads this
    {
      flagged <= known
    }

    constructor ()
      ensures Valid() && flagged == {}
    {
      known, flagged := {}, {};
    }

    method Mark(opt: nat)
      requires Valid()
      modifies this
      ensures Valid() && flagged == old(flagged) + {opt}
    {
      known, flagged := known + {opt}, flagged + {opt};
    }

    /** Each option flagged since the last call, once. */
    method TakeStarving() returns (starving: seq<nat>)
      requires Valid()
      modifies this`flagged
      ensures Valid() && flagged == {}
      ensures forall o :: o in starving <==> o in old(flagged)
      ensures |starving| == |old(flagged)|
    {
      starving := [];
      while flagged != {}
        invariant Valid() && flagged <= old(flagged)
        invariant forall o :: o in starving <==> o in old(flagged) && o !in flagged
        invariant |starving| + |flagged| == |old(flagged)|
        decreases |flagged|
      {
        var o :| o in flagged;
        starving, flagged := starving + [o], flagged - {o};
      }
    }
  }

  /** How one turn of the loop ends. */
  datatype Turn = DepthFailed | TooDeep | Starved | NotPublished(task: nat) | NotMarked(task: nat) | Dispatched(task: nat)

  predicate HasTask(r: Turn) { r.NotPublished? || r.NotMarked? || r.Dispatched? }

  class DispatcherService {
    const opt: nat
    var dispatched: nat

    constructor (opt: nat)
      ensures this.opt == opt && dispatched == 0
    {
      this.opt, dispatched := opt, 0;
    }

    /** Depth check, select, publish, mark. `look` is what the depth query comes to, `script` what
        the broker makes of each attempt; `markFails` says whether the marking transaction fails to commit. */
    method DispatchStep(
      store: CoordinatorStore, starvation: StarvationSignals, publisher: P.Publisher, queue: P.Queue<BuildTask>,
      list: Option<Blocklist.Blocklist>, look: P.DepthAnswer, script: seq<P.Attempt>, markFails: bool, now: int)
      returns (r: Turn, copies: nat)
      requires store.Valid() && starvation.Valid() && publisher.maxAttempts <= |script|
      modifies this, store, starvation, publisher, queue
      ensures store.Valid() && starvation.Valid()
      ensures r.DepthFailed? <==> look.Unreachable?
      ensures r.TooDeep? <==> look.Answered? && |old(queue.msgs)| > DEPTH_THRESHOLD
      ensures r.Starved? <==> !r.DepthFailed? && !r.TooDeep? && forall id: nat :: !Eligible(old(store.Contents()), list, opt, id)
      ensures HasTask(r) ==> Eligible(old(store.Contents()), list, opt, r.task)
      ensures HasTask(r) ==> (r.NotPublished? <==> !exists k :: P.ConfirmedAt(script, publisher.maxAttempts, k))
      ensures starvation.flagged == old(starvation.flagged) + if r.Starved? then {opt} else {}
      ensures store.Contents() == if r.Dispatched? then Tables.Apply(old(store.Contents()), OpMark(r.task, now)) else old(store.Contents())
      ensures r.NotMarked? ==> markFails
      ensures r.Dispatched? ==> !markFails
      ensures queue.msgs == old(queue.msgs) +
              if HasTask(r) then P.Repeat(TaskOf(CandidateOf(old(store.Contents()), r.task)), copies) else []
      ensures forall k :: |old(queue.msgs)| <= k < |queue.msgs| ==>
                HasTask(r) && Carries(old(store.Contents()), queue.msgs[k], r.task) && queue.msgs[k].optId == opt
      ensures HasTask(r) ==> P.LeavesCopies(script, publisher.maxAttempts, copies)
      ensures copies <= publisher.maxAttempts && (r.NotMarked? || r.Dispatched? ==> copies > 0)
      ensures dispatched == old(dispatched) + if r.Dispatched? then 1 else 0
    {
      copies := 0;
      var depth := publisher.QueueDepth(queue, look);
      if depth.None? { return DepthFailed, 0; }
      if depth.value > DEPTH_THRESHOLD { return TooDeep, 0; }
      var next := store.NextDispatchable(opt, list);
      if next.None? {
        starvation.Mark(opt);
        return Starved, 0;
      }
      TaskCarries(store.Contents(), next.value.taskId);
      r, copies := Send(store, publisher, queue, next.value, script, markFails, now);
    }

    /** Publish first, mark only after the confirm. */
    method Send(
      store: CoordinatorStore, publisher: P.Publisher, queue: P.Queue<BuildTask>, c: Candidate, script: seq<P.Attempt>,
      markFails: bool, now: int)
      returns (r: Turn, copies: nat)
      requires store.Valid() && publisher.maxAttempts <= |script|
      modifies this, store, publisher, queue
      ensures store.Valid()
      ensures HasTask(r) && r.task == c.taskId
      ensures r.NotPublished? <==> !exists k :: P.ConfirmedAt(script, publisher.maxAttempts, k)
      ensures !r.NotPublished? ==> r.NotMarked? == markFails
      ensures store.Contents() == if r.Dispatched? then Tables.Apply(old(store.Contents()), OpMark(r.task, now)) else old(store.Contents())
      ensures queue.msgs == old(queue.msgs) + P.Repeat(TaskOf(c), copies)
      ensures P.LeavesCopies(script, publisher.maxAttempts, copies)
      ensures copies <= publisher.maxAttempts && (!r.NotPublished? ==> copies > 0)
      ensures dispatched == old(dispatched) + if r.Dispatched? then 1 else 0
    {
      var sent, made := publisher.Publish(queue, TaskOf(c), script);
      P.ReturnMeansConfirmed(script, publisher.maxAttempts, made);
      P.CopiesBound(script[..made]);
      copies := P.Copies(script[..made]);
      if sent != P.Returned { return NotPublished(c.taskId), copies; }
      if markFails { return NotMarked(c.taskId), copies; }
      store.MarkCloneProcessing(c.taskId, now);
      dispatched := dispatched + 1;
      r := Dispatched(c.taskId);
    }
  }

  /** Launches each option's dispatcher at most once. */
  class DispatchManager {
    var started: set<nat>
    var launched: seq<nat>

    ghost predicate Valid()
      reads this
    {
      && (forall o :: o in started <==> o in launched)
      && (forall i, j :: 0 <= i < j < |launched| ==> launched[i] != launched[j])
    }

    constructor ()
      ensures Valid() && started == {}
    {
      started, launched := {}, [];
    }

    method EnsureStarted(opt: nat)
      requires Valid()
      modifies this
      ensures Valid() && started == old(started) + {opt}
      ensures launched == old(launched) + if opt in old(started) then [] else [opt]
    {
      if opt in started {
        return;
      }
      started := started + {opt};
      launched := launched + [opt];
    }
  }

  // --- the loop body is a run of protocol actions ---------------------------------------------

  ghost function RunFrom(s: Sys, acts: seq<Action>): Sys {
    if acts == [] then s else Step(RunFrom(s, acts[..|acts| - 1]), acts[|acts| - 1])
  }

  lemma RunFromAppend(s: Sys, acts: seq<Action>, a: Action)
    ensures RunFrom(s, acts + [a]) == Step(RunFrom(s, acts), a)
  {
    assert (acts + [a])[..|acts|] == acts;
  }

  function HandOver(opt: nat, t: nat, copies: nat): seq<Action> {
    [Select(opt, t), CallPublish(opt)] + seq(copies, _ => QueueCopy(opt))
  }

  /** The actions of one turn that found task `t`. */
  function TurnActions(opt: nat, r: Turn, copies: nat, now: int): seq<Action>
    requires HasTask(r)
  {
    HandOver(opt, r.task, copies) +
    if r.NotPublished? then [PublishRaises(opt)]
    else [PublishReturns(opt)] + [if r.Dispatched? then MarkCommits(opt, now) else MarkFails(opt)]
  }

  ghost predicate Ready(s: Sys, opt: nat, t: nat) {
    Inv(s.db) && opt in s.disp && s.disp[opt].Idle? && Eligible(s.db, s.list, opt, t)
  }

  /** Where one dispatcher stands: the tables, its phase with all others, its queue. */
  ghost predicate At(s: Sys, db: Db, disp: map<nat, Phase>, opt: nat, q: seq<BuildTask>) {
    s.db == db && s.disp == disp && QueueOf(s, opt) == q
  }

  lemma MoveStep(s: Sys, a: Action, opt: nat)
    requires Mover(a) == Some(opt) && opt in s.disp && CanMove(s.disp[opt], a) && !a.MarkCommits? && !a.QueueCopy?
    ensures At(Step(s, a), s.db, s.disp[opt := Moved(s.disp[opt], a)], opt, QueueOf(s, opt))
  {
  }

  lemma CopyStep(s: Sys, opt: nat)
    requires opt in s.disp && s.disp[opt].Publishing?
    ensures var c := s.disp[opt].c;
            At(Step(s, QueueCopy(opt)), s.db, s.disp[opt := Publishing(c, true)], opt, QueueOf(s, opt) + [TaskOf(c)])
  {
  }

  lemma MarkStep(s: Sys, opt: nat, now: int)
    requires opt in s.disp && s.disp[opt].Unmarked?
    ensures At(Step(s, MarkCommits(opt, now)), MarkProcessing(s.db, s.disp[opt].c.taskId, now), s.disp[opt := Idle],
               opt, QueueOf(s, opt))
  {
    MarkIs(s, opt, now);
  }

  lemma SelectStep(s: Sys, opt: nat, t: nat)
    requires Ready(s, opt, t)
    ensures opt in s.db.opts
    ensures At(Step(s, Select(opt, t)), s.db, s.disp[opt := Chosen(CandidateOf(s.db, t), s.list)], opt, QueueOf(s, opt))
  {
  }

  ghost predicate Handing(s: Sys, s': Sys, opt: nat, c: Candidate, copies: nat) {
    At(s', s.db, s.disp[opt := Publishing(c, copies > 0)], opt, QueueOf(s, opt) + P.Repeat(TaskOf(c), copies))
  }

  lemma HandOverStart(s: Sys, opt: nat, t: nat)
    requires Ready(s, opt, t)
    ensures opt in s.db.opts
    ensures Handing(s, RunFrom(s, HandOver(opt, t, 0)), opt, CandidateOf(s.db, t), 0)
  {
    SelectStep(s, opt, t);
    var chosen := Step(s, Select(opt, t));
    assert HandOver(opt, t, 0) == ([] + [Select(opt, t)]) + [CallPublish(opt)];
    RunFromAppend(s, [] + [Select(opt, t)], CallPublish(opt));
    RunFromAppend(s, [], Select(opt, t));
    MoveStep(chosen, CallPublish(opt), opt);
    assert QueueOf(s, opt) + P.Repeat(TaskOf(CandidateOf(s.db, t)), 0) == QueueOf(s, opt);
  }

  lemma HandOverCopy(s: Sys, before: Sys, opt: nat, c: Candidate, copies: nat)
    requires Handing(s, before, opt, c, copies)
    ensures Handing(s, Step(before, QueueCopy(opt)), opt, c, copies + 1)
  {
    CopyStep(before, opt);
    assert P.Repeat(TaskOf(c), copies + 1) == P.Repeat(TaskOf(c), copies) + [TaskOf(c)];
    assert s.disp[opt := Publishing(c, copies > 0)][opt := Publishing(c, true)] == s.disp[opt := Publishing(c, true)];
  }

  lemma {:induction false} HandOverRuns(s: Sys, opt: nat, t: nat, copies: nat)
    requires Ready(s, opt, t)
    ensures opt in s.db.opts
    ensures Handing(s, RunFrom(s, HandOver(opt, t, copies)), opt, CandidateOf(s.db, t), copies)
  {
    if copies == 0 {
      HandOverStart(s, opt, t);
    } else {
      var h := HandOver(opt, t, copies - 1);
      HandOverRuns(s, opt, t, copies - 1);
      HandOverCopy(s, RunFrom(s, h), opt, CandidateOf(s.db, t), copies - 1);
      assert HandOver(opt, t, copies) == h + [QueueCopy(opt)];
      RunFromAppend(s, h, QueueCopy(opt));
    }
  }

  /** The actions of a turn leave the tables and the queue as the loop body leaves them, and the
      dispatcher idle. */
  lemma TurnRuns(s: Sys, opt: nat, r: Turn, copies: nat, now: int)
    requires HasTask(r) && Ready(s, opt, r.task) && (r.NotPublished? || copies > 0)
    ensures opt in s.db.opts
    ensures At(RunFrom(s, TurnActions(opt, r, copies, now)),
               if r.Dispatched? then MarkProcessing(s.db, r.task, now) else s.db, s.disp,
               opt, QueueOf(s, opt) + P.Repeat(TaskOf(CandidateOf(s.db, r.task)), copies))
  {
    var h := HandOver(opt, r.task, copies);
    var handed := RunFrom(s, h);
    HandOverRuns(s, opt, r.task, copies);
    IdleAgain(s.disp, opt, Publishing(CandidateOf(s.db, r.task), copies > 0));
    if r.NotPublished? {
      RaisedTurn(s, handed, opt, h);
      assert TurnActions(opt, r, copies, now) == h + [PublishRaises(opt)];
    } else {
      ConfirmedTurn(s, handed, opt, r, h, now);
    }
  }

  lemma IdleAgain(disp: map<nat, Phase>, opt: nat, p: Phase)
    requires opt in disp && disp[opt].Idle?
    ensures disp[opt := p][opt := Idle] == disp
  {
  }

  lemma RaisedTurn(s: Sys, handed: Sys, opt: nat, h: seq<Action>)
    requires handed == RunFrom(s, h) && opt in handed.disp && handed.disp[opt].Publishing?
    ensures At(RunFrom(s, h + [PublishRaises(opt)]), handed.db, handed.disp[opt := Idle], opt, QueueOf(handed, opt))
  {
    RunFromAppend(s, h, PublishRaises(opt));
    MoveStep(handed, PublishRaises(opt), opt);
  }

  lemma ConfirmedTurn(s: Sys, handed: Sys, opt: nat, r: Turn, h: seq<Action>, now: int)
    requires handed == RunFrom(s, h) && (r.NotMarked? || r.Dispatched?)
    requires opt in handed.disp && handed.disp[opt].Publishing? && handed.disp[opt].landed
    requires handed.disp[opt].c.taskId == r.task
    ensures At(RunFrom(s, h + ([PublishReturns(opt)] + [if r.Dispatched? then MarkCommits(opt, now) else MarkFails(opt)])),
               if r.Dispatched? then MarkProcessing(handed.db, r.task, now) else handed.db,
               handed.disp[opt := Idle], opt, QueueOf(handed, opt))
  {
    var last := if r.Dispatched? then MarkCommits(opt, now) else MarkFails(opt);
    var sent := Step(handed, PublishReturns(opt));
    assert h + ([PublishReturns(opt)] + [last]) == (h + [PublishReturns(opt)]) + [last];
    RunFromAppend(s, h, PublishReturns(opt));
    RunFromAppend(s, h + [PublishReturns(opt)], last);
    MoveStep(handed, PublishReturns(opt), opt);
    SettledStep(handed.disp, sent, opt, r, now);
  }

  lemma SettledStep(disp: map<nat, Phase>, sent: Sys, opt: nat, r: Turn, now: int)
    requires (r.NotMarked? || r.Dispatched?) && opt in sent.disp && sent.disp[opt].Unmarked?
    requires sent.disp[opt].c.taskId == r.task && sent.disp == disp[opt := sent.disp[opt]]
    ensures At(Step(sent, if r.Dispatched? then MarkCommits(opt, now) else MarkFails(opt)),
               if r.Dispatched? then MarkProcessing(sent.db, r.task, now) else sent.db,
               disp[opt := Idle], opt, QueueOf(sent, opt))
  {
    assert sent.disp[opt := Idle] == disp[opt := Idle];
    if r.Dispatched? { MarkStep(sent, opt, now); } else { MoveStep(sent, MarkFails(opt), opt); }
  }

  // --- starting dispatchers is the only way to have one -------------------------------------------

  /** With the manager's set being the options that have a dispatcher, starting is what the manager
      does: nothing for one that runs, and otherwise one more, idle, the others left alone. */
  lemma StartIsEnsureStarted(s: Sys, started: set<nat>, opt: nat)
    requires s.disp.Keys == started && opt in s.db.opts
    ensures var s' := Step(s, StartDispatcher(opt));
            && s'.disp.Keys == started + {opt}
            && (opt in started ==> s' == s)
            && (opt !in started ==> s'.disp == s.disp[opt := Idle])
  {
    if opt in started { assert started + {opt} == started; }
  }

  /** No other action adds a dispatcher, and only the end of the process, which empties the manager's
      set too, takes one away. */
  lemma DispatchersOnlyStarted(s: Sys, a: Action)
    ensures !a.StartDispatcher? && !a.ProcessCrash? ==> Step(s, a).disp.Keys == s.disp.Keys
    ensures a.ProcessCrash? ==> Step(s, a).disp.Keys == {}
  {
  }

  /** The manager's set over a run. */
  ghost function StartedBy(acts: seq<Action>): set<nat> {
    if acts == [] then {}
    else
      var before, last := StartedBy(acts[..|acts| - 1]), acts[|acts| - 1];
      match last
      case StartDispatcher(opt) => if opt in Exec(acts[..|acts| - 1]).db.opts then before + {opt} else before
      case ProcessCrash => {}
      case _ => before
  }

  /** In every run the options with a dispatcher are those the manager started since the process
      began. */
  lemma {:induction false} OneDispatcherEach(acts: seq<Action>)
    ensures Exec(acts).disp.Keys == StartedBy(acts)
  {
    if acts != [] {
      var front, last := acts[..|acts| - 1], acts[|acts| - 1];
      OneDispatcherEach(front);
      match last
      case StartDispatcher(opt) =>
        if opt in Exec(front).db.opts { StartIsEnsureStarted(Exec(front), StartedBy(front), opt); }
      case _ => DispatchersOnlyStarted(Exec(front), last);
    }
  }

  // --- a run that gets to PROCESSING --------------------------------------------------------------

  lemma {:induction false} ExecThenRun(acts: seq<Action>, more: seq<Action>)
    ensures Exec(acts + more) == RunFrom(Exec(acts), more)
  {
    if more == [] {
      assert acts + more == acts;
    } else {
      var n := |more| - 1;
      ExecThenRun(acts, more[..n]);
      assert (acts + more)[..|acts + more| - 1] == acts + more[..n];
    }
  }

  /** Wherever a run leaves an idle dispatcher with an eligible row, a turn that is confirmed and
      marked brings that row to clone PROCESSING. */
  lemma TurnReachesProcessing(acts: seq<Action>, opt: nat, t: nat, copies: nat, now: int)
    requires Ready(Exec(acts), opt, t) && copies > 0
    ensures var s := Exec(acts + TurnActions(opt, Dispatched(t), copies, now));
            t in s.db.rows && s.db.rows[t].clone == CloneProcessing
  {
    ExecThenRun(acts, TurnActions(opt, Dispatched(t), copies, now));
    TurnRuns(Exec(acts), opt, Dispatched(t), copies, now);
  }

  /** A repository of an option's language, the option for every build system, its dispatcher. */
  function FirstActions(reg: Identity, repo: Repo, now: int): seq<Action> {
    [Commit(OpRegister(reg)), Commit(OpInsert(repo, now)), StartDispatcher(0)]
  }

  lemma FirstTables(reg: Identity, repo: Repo, now: int)
    requires reg.buildSystem == "all" && LanguagesMatch(repo.language, reg.language)
    ensures var db := Tables.Apply(Tables.Apply(EMPTY_DB, OpRegister(reg)), OpInsert(repo, now));
            && db.rows == map[0 := NewRow(0, 0, now)] && db.repos == map[0 := repo] && db.opts == map[0 := BuildOpt(reg, true)]
  {
    var a1 := Tables.Apply(EMPTY_DB, OpRegister(reg));
    FindOptFinds(EMPTY_DB.opts, reg, 0);
    assert a1 == EMPTY_DB.(opts := map[0 := BuildOpt(reg, true)], nextOpt := 1);
    assert Enroll(a1, repo, 0, now, 0) == (map[], 0);
    assert Enroll(a1, repo, 0, now, 1) == (map[0 := NewRow(0, 0, now)], 1);
  }

  lemma ExecAppend(acts: seq<Action>, a: Action)
    ensures Exec(acts + [a]) == Step(Exec(acts), a)
  {
    assert (acts + [a])[..|acts|] == acts;
  }

  /** A registration or an insertion changes the tables only. */
  lemma CommitStep(acts: seq<Action>, op: Op)
    requires op.OpRegister? || op.OpInsert?
    ensures var s, s' := Exec(acts), Exec(acts + [Commit(op)]);
            s'.db == Tables.Apply(s.db, op) && s'.disp == s.disp && s'.list == s.list
  {
    ExecAppend(acts, Commit(op));
  }

  lemma StartStep(acts: seq<Action>, opt: nat)
    requires opt in Exec(acts).db.opts && opt !in Exec(acts).disp
    ensures var s, s' := Exec(acts), Exec(acts + [StartDispatcher(opt)]);
            s'.db == s.db && s'.disp == s.disp[opt := Idle] && s'.list == s.list
  {
    ExecAppend(acts, StartDispatcher(opt));
  }

  lemma FirstReady(reg: Identity, repo: Repo, now: int)
    requires reg.buildSystem == "all" && LanguagesMatch(repo.language, reg.language)
    ensures Ready(Exec(FirstActions(reg, repo, now)), 0, 0)
  {
    var a0: seq<Action> := [];
    var a1 := a0 + [Commit(OpRegister(reg))];
    var a2 := a1 + [Commit(OpInsert(repo, now))];
    assert FirstActions(reg, repo, now) == a2 + [StartDispatcher(0)];
    ExecInv(a2 + [StartDispatcher(0)]);
    FirstTables(reg, repo, now);
    CommitStep(a0, OpRegister(reg));
    CommitStep(a1, OpInsert(repo, now));
    StartStep(a2, 0);
  }

  /** So from the start, for any such option and repository, a run of this length gets a row to clone
      PROCESSING. */
  lemma ProcessingIsReached(reg: Identity, repo: Repo, now: int)
    requires reg.buildSystem == "all" && LanguagesMatch(repo.language, reg.language)
    ensures var s := Exec(FirstActions(reg, repo, now) + TurnActions(0, Dispatched(0), 1, now));
            0 in s.db.rows && s.db.rows[0].clone == CloneProcessing
  {
    FirstReady(reg, repo, now);
    TurnReachesProcessing(FirstActions(reg, repo, now), 0, 0, 1, now);
  }
}
