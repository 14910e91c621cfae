/** The dispatchers' event log, and what one task's events must look like. */
module DispatchLog {
  import opened Wrappers
  import Blocklist

  datatype Event =
    | Handed(task: nat, opt: nat, url: string, list: Option<Blocklist.Blocklist>)  // publish() is called
    | Landed(task: nat, opt: nat)                                                  // a copy is queued
    | Confirmed(task: nat, opt: nat)                                               // publish() returns
    | Raised(task: nat)                                                            // publish() raises
    | Marked(task: nat)                                                            // PROCESSING is committed
    | MarkLost(task: nat)                                                          // the mark does not commit
    | Crashed(tasks: set<nat>)                                                     // these were in flight

  datatype Stage = Fresh | HandedOver(opt: nat) | OnQueue(opt: nat) | Settled(opt: nat) | Retry | Done(opt: nat) | Bad

  predicate Fails(e: Event, t: nat) {
    match e
    case Raised(task) => task == t
    case MarkLost(task) => task == t
    case Crashed(tasks) => t in tasks
    case _ => false
  }

  predicate InFlight(s: Stage) { s.HandedOver? || s.OnQueue? || s.Settled? }

  /** One event, as task `t` sees it. */
  function Next(e: Event, t: nat, s: Stage): Stage {
    match e
    case Handed(task, opt, _, _) => if task != t then s else if s.Fresh? || s.Retry? then HandedOver(opt) else Bad
    case Landed(task, opt) =>
      if task != t then s else if s == HandedOver(opt) || s == OnQueue(opt) then OnQueue(opt) else Bad
    case Confirmed(task, opt) => if task != t then s else if s == OnQueue(opt) then Settled(opt) else Bad
    case Raised(task) => if task != t then s else if s.HandedOver? || s.OnQueue? then Retry else Bad
    case Marked(task) => if task != t then s else if s.Settled? then Done(s.opt) else Bad
    case MarkLost(task) => if task != t then s else if s.Settled? then Retry else Bad
    case Crashed(tasks) => if t !in tasks then s else if InFlight(s) then Retry else Bad
  }

  function StageOf(log: seq<Event>, t: nat): Stage {
    if log == [] then Fresh else Next(log[|log| - 1], t, StageOf(log[..|log| - 1], t))
  }

  lemma StageAppend(log: seq<Event>, e: Event, t: nat)
    ensures StageOf(log + [e], t) == Next(e, t, StageOf(log, t))
  {
    assert (log + [e])[..|log|] == log;
  }

  lemma {:induction false} BadForever(log: seq<Event>, t: nat, k: nat)
    requires k <= |log| && StageOf(log, t) != Bad
    ensures StageOf(log[..k], t) != Bad
  {
    if k == |log| {
      assert log[..k] == log;
    } else {
      BadForever(log[..|log| - 1], t, k);
      assert log[..|log| - 1][..k] == log[..k];
    }
  }

  /** The stage after one more event of a log. */
  lemma StageAt(log: seq<Event>, t: nat, k: nat)
    requires k < |log| && StageOf(log, t) != Bad
    ensures StageOf(log[..k + 1], t) == Next(log[k], t, StageOf(log[..k], t)) != Bad
  {
    assert log[..k + 1][..k] == log[..k];
    BadForever(log, t, k + 1);
  }

  predicate IsHanded(e: Event, t: nat) { e.Handed? && e.task == t }

  predicate Busy(s: Stage) { InFlight(s) || s.Done? }

  /** With no failure in between, a task that was handed over stays in flight or is done. */
  lemma {:induction false} StaysBusy(log: seq<Event>, t: nat, i: nat, k: nat)
    requires i < k <= |log| && StageOf(log, t) != Bad && IsHanded(log[i], t)
    requires forall m :: i < m < k ==> !Fails(log[m], t)
    ensures Busy(StageOf(log[..k], t))
  {
    StageAt(log, t, k - 1);
    if k > i + 1 { StaysBusy(log, t, i, k - 1); }
  }

  /** A task is handed over again only after the earlier hand-over failed. */
  lemma HandedAgainAfterFailure(log: seq<Event>, t: nat, i: nat, j: nat)
    requires i < j < |log| && StageOf(log, t) != Bad
    requires IsHanded(log[i], t) && IsHanded(log[j], t)
    ensures exists k :: i < k < j && Fails(log[k], t)
  {
    if forall k :: i < k < j ==> !Fails(log[k], t) {
      StaysBusy(log, t, i, j);
      StageAt(log, t, j);
      assert false;
    }
  }

  /** Once marked, done. */
  lemma {:induction false} MarkedStaysDone(log: seq<Event>, t: nat, i: nat, k: nat)
    requires i < k <= |log| && StageOf(log, t) != Bad && log[i] == Marked(t)
    ensures StageOf(log[..k], t).Done?
  {
    StageAt(log, t, k - 1);
    if k > i + 1 { MarkedStaysDone(log, t, i, k - 1); }
  }

  /** Four events in this order: handed over, queued, confirmed, marked. */
  ghost predicate FullDispatch(log: seq<Event>, t: nat, opt: nat, h: nat, l: nat, c: nat, m: nat) {
    && h < l < c < m < |log|
    && IsHanded(log[h], t) && log[h].opt == opt
    && log[l] == Landed(t, opt) && log[c] == Confirmed(t, opt) && log[m] == Marked(t)
  }

  /** The hand-over a later stage goes back to. */
  ghost predicate Reached(log: seq<Event>, t: nat, opt: nat, h: nat) {
    h < |log| && IsHanded(log[h], t) && log[h].opt == opt
  }

  lemma {:induction false} FindHanded(log: seq<Event>, t: nat, opt: nat) returns (h: nat)
    requires StageOf(log, t) == HandedOver(opt)
    ensures Reached(log, t, opt, h)
  {
    h := |log| - 1;
    if StageOf(log[..h], t) == HandedOver(opt) { h := FindHanded(log[..h], t, opt); }
  }

  lemma {:induction false} FindLanded(log: seq<Event>, t: nat, opt: nat) returns (h: nat, l: nat)
    requires StageOf(log, t) == OnQueue(opt)
    ensures h < l < |log| && Reached(log, t, opt, h) && log[l] == Landed(t, opt)
  {
    l := |log| - 1;
    if StageOf(log[..l], t) == OnQueue(opt) {
      h, l := FindLanded(log[..l], t, opt);
    } else {
      h := FindHanded(log[..l], t, opt);
    }
  }

  lemma {:induction false} FindConfirmed(log: seq<Event>, t: nat, opt: nat) returns (h: nat, l: nat, c: nat)
    requires StageOf(log, t) == Settled(opt)
    ensures h < l < c < |log| && Reached(log, t, opt, h) && log[l] == Landed(t, opt) && log[c] == Confirmed(t, opt)
  {
    c := |log| - 1;
    if StageOf(log[..c], t) == Settled(opt) {
      h, l, c := FindConfirmed(log[..c], t, opt);
    } else {
      h, l := FindLanded(log[..c], t, opt);
    }
  }

  lemma {:induction false} DoneWasDispatched(log: seq<Event>, t: nat, opt: nat)
    requires StageOf(log, t) == Done(opt)
    ensures exists h, l, c, m :: FullDispatch(log, t, opt, h, l, c, m)
  {
    var m := |log| - 1;
    if StageOf(log[..m], t) == Done(opt) {
      DoneWasDispatched(log[..m], t, opt);
      var h, l, c, m' :| FullDispatch(log[..m], t, opt, h, l, c, m');
      assert FullDispatch(log, t, opt, h, l, c, m');
    } else {
      var h, l, c := FindConfirmed(log[..m], t, opt);
      assert FullDispatch(log, t, opt, h, l, c, m);
    }
  }
}
