/**
 Deliveries, acknowledgements and handler runs, with early or late acknowledgement
 (backend/assemblage/mq/consumer.py).
 */
module Consumer {

  // --- one callback -------------------------------------------------------------------------

  datatype Handling = ReturnsAck | ReturnsRequeue | Raises

  datatype Event = Ran(tag: nat) | Ack(tag: nat) | Nack(tag: nat)

  predicate IsSettle(e: Event) { e.Ack? || e.Nack? }

  function Settles(es: seq<Event>): nat {
    if es == [] then 0 else (if IsSettle(es[0]) then 1 else 0) + Settles(es[1..])
  }

  class Channel {
    var events: seq<Event>
    var open: bool

    constructor ()
      ensures events == [] && open
    {
      events, open := [], true;
    }

    /** A basic_ack or basic_nack; it raises on a closed channel. */
    method Settle(e: Event) returns (ok: bool)
      modifies this`events
      ensures ok == open
      ensures events == old(events) + if open then [e] else []
    {
      if open { events := events + [e]; }
      ok := open;
    }
  }

  /** What one callback adds to the channel's events. */
  function Callback(early: bool, open: bool, tag: nat, h: Handling): seq<Event> {
    var settle := if early || h.ReturnsAck? then Ack(tag) else Nack(tag);
    if early then (if open then [settle, Ran(tag)] else [])
    else [Ran(tag)] + if open then [settle] else []
  }

  /** One delivery. The callback completes unless the settling call raises. */
  method OnMessage(ch: Channel, early: bool, tag: nat, h: Handling) returns (completes: bool)
    modifies ch`events
    ensures completes == ch.open
    ensures ch.events == old(ch.events) + Callback(early, ch.open, tag, h)
    ensures |old(ch.events)| <= |ch.events|
    ensures var added := ch.events[|old(ch.events)|..];
            && (forall i, j :: 0 <= i < |added| && 0 <= j < |added| && added[i] == Ran(tag) && IsSettle(added[j]) ==>
                  if early then j < i else i < j)
            && (forall i :: 0 <= i < |added| ==>
                  added[i] == Ran(tag) || added[i] == if early || h == ReturnsAck then Ack(tag) else Nack(tag))
            && (Ran(tag) in added <==> !early || ch.open)
            && ((exists e :: e in added && IsSettle(e)) <==> ch.open)
    ensures var added := ch.events[|old(ch.events)|..];
            forall n, e :: 0 <= n <= |added| && e in added[..n] && IsSettle(e) && !early ==> Ran(tag) in added[..n]
  {
    CallbackOrder(early, ch.open, tag, h);
    AddedIs(ch.events, Callback(early, ch.open, tag, h));
    if early {
      var acked := ch.Settle(Ack(tag));
      if !acked { return false; }
      assert old(ch.events) + [Ack(tag)] + [Ran(tag)] == old(ch.events) + [Ack(tag), Ran(tag)];
      ch.events := ch.events + [Ran(tag)];
      return true;
    }
    ch.events := ch.events + [Ran(tag)];
    if h.ReturnsAck? {
      completes := ch.Settle(Ack(tag));
    } else {
      completes := ch.Settle(Nack(tag));
    }
  }

  /** The order is what early and late mean: early, the settlement comes before the run; late, after
      it, so that wherever a crash cuts a late callback off, what settled has run. */
  lemma CallbackOrder(early: bool, open: bool, tag: nat, h: Handling)
    ensures var es := Callback(early, open, tag, h);
            && (forall i, j :: 0 <= i < |es| && 0 <= j < |es| && es[i] == Ran(tag) && IsSettle(es[j]) ==>
                  if early then j < i else i < j)
            && (forall i :: 0 <= i < |es| ==>
                  es[i] == Ran(tag) || es[i] == if early || h == ReturnsAck then Ack(tag) else Nack(tag))
            && (Ran(tag) in es <==> !early || open)
            && ((exists e :: e in es && IsSettle(e)) <==> open)
    ensures forall n, e :: 0 <= n <= |Callback(early, open, tag, h)| && e in Callback(early, open, tag, h)[..n] && IsSettle(e) && !early ==>
              Ran(tag) in Callback(early, open, tag, h)[..n]
  {
    var es := Callback(early, open, tag, h);
    if open {
      var settle := if early || h == ReturnsAck then Ack(tag) else Nack(tag);
      assert es == if early then [settle, Ran(tag)] else [Ran(tag), settle];
      assert settle in es && IsSettle(settle);
    }
    forall n, e | 0 <= n <= |es| && e in es[..n] && IsSettle(e) && !early ensures Ran(tag) in es[..n] {
      assert es[..n][0] == Ran(tag);
    }
  }

  lemma AddedIs(before: seq<Event>, added: seq<Event>)
    ensures (before + added)[|before|..] == added
  {
  }

  /** A callback that completes settles its delivery exactly once and runs the handler once; one
      that does not, settles nothing. Late, the ack follows a handler that returned ACK. */
  lemma SettledExactlyOnce(early: bool, open: bool, tag: nat, h: Handling)
    ensures Settles(Callback(early, open, tag, h)) == if open then 1 else 0
    ensures forall e :: e in Callback(early, open, tag, h) ==> e.tag == tag
    ensures open ==> Ran(tag) in Callback(early, open, tag, h)
    ensures Ack(tag) in Callback(early, open, tag, h) <==> open && (early || h.ReturnsAck?)
  {
    var es := Callback(early, open, tag, h);
    if |es| == 2 {
      assert es[1..] == [es[1]] && es[1..][1..] == [];
      assert Settles([es[1]]) == if IsSettle(es[1]) then 1 else 0;
    } else if |es| == 1 {
      assert es[1..] == [];
    }
  }

  // --- the broker and any number of consumers -------------------------------------------------

  /** Where a message is: on the queue, held by a consumer's connection, or gone. */
  datatype Place = Ready | Held(c: nat) | Gone

  datatype Phase = Waiting | Acked(m: nat) | Running(m: nat)

  /** `up` holds the consumers whose connection the broker regards as open; `buf` what a client
      received and has not begun; `phase` the clients that exist. `runs`, `lost` and `ackedRun`
      record handler runs, acks that never arrived, and messages a run of which returned ACK. */
  datatype Sys = Sys(
    place: map<nat, Place>, up: set<nat>, buf: map<nat, set<nat>>, phase: map<nat, Phase>,
    runs: map<nat, nat>, lost: map<nat, nat>, ackedRun: set<nat>)

  const START := Sys(map[], {}, map[], map[], map[], map[], {})

  datatype Action =
    | Publish(m: nat)
    | Connect(c: nat)
    | Deliver(c: nat, m: nat)
    | BrokerDrops(c: nat)
    | Dies(c: nat)
    | AckEarly(c: nat, m: nat, arrives: bool)
    | RunEarly(c: nat)
    | FinishEarly(c: nat)
    | RunLate(c: nat, m: nat)
    | FinishLate(c: nat, h: Handling, arrives: bool)

  function At(counts: map<nat, nat>, m: nat): nat { if m in counts then counts[m] else 0 }

  function Plus(counts: map<nat, nat>, m: nat): map<nat, nat> { counts[m := At(counts, m) + 1] }

  function Buffer(s: Sys, c: nat): set<nat> { if c in s.buf then s.buf[c] else {} }

  predicate Enabled(early: bool, s: Sys, a: Action) {
    match a
    case Publish(m) => m !in s.place
    case Connect(c) => c !in s.phase && c !in s.up
    case Deliver(c, m) => c in s.up && c in s.phase && m in s.place && s.place[m].Ready?
    case BrokerDrops(c) => c in s.up
    case Dies(c) => c in s.phase
    case AckEarly(c, m, arrives) =>
      early && c in s.phase && s.phase[c].Waiting? && m in Buffer(s, c) && (arrives ==> c in s.up)
    case RunEarly(c) => early && c in s.phase && s.phase[c].Acked?
    case FinishEarly(c) => early && c in s.phase && s.phase[c].Running?
    case RunLate(c, m) => !early && c in s.phase && s.phase[c].Waiting? && m in Buffer(s, c)
    case FinishLate(c, _, arrives) => !early && c in s.phase && s.phase[c].Running? && (arrives ==> c in s.up)
  }

  /** Closing a connection puts what it held back on the queue. */
  function Returned(place: map<nat, Place>, c: nat): map<nat, Place> {
    map m | m in place :: if place[m] == Held(c) then Ready else place[m]
  }

  function Apply(s: Sys, a: Action): Sys {
    match a
    case Publish(m) => s.(place := s.place[m := Ready])
    case Connect(c) => s.(up := s.up + {c}, phase := s.phase[c := Waiting], buf := s.buf[c := {}])
    case Deliver(c, m) => s.(place := s.place[m := Held(c)], buf := s.buf[c := Buffer(s, c) + {m}])
    case BrokerDrops(c) => s.(up := s.up - {c}, place := Returned(s.place, c))
    case Dies(c) => s.(up := s.up - {c}, place := Returned(s.place, c), phase := s.phase - {c}, buf := s.buf - {c})
    case AckEarly(c, m, arrives) =>
      var began := s.(buf := s.buf[c := Buffer(s, c) - {m}], phase := s.phase[c := Acked(m)]);
      if arrives then began.(place := s.place[m := Gone]) else began.(lost := Plus(s.lost, m))
    case RunEarly(c) =>
      if c in s.phase && s.phase[c].Acked?
      then s.(phase := s.phase[c := Running(s.phase[c].m)], runs := Plus(s.runs, s.phase[c].m)) else s
    case FinishEarly(c) => s.(phase := s.phase[c := Waiting])
    case RunLate(c, m) =>
      s.(buf := s.buf[c := Buffer(s, c) - {m}], phase := s.phase[c := Running(m)], runs := Plus(s.runs, m))
    case FinishLate(c, h, arrives) =>
      if c in s.phase && s.phase[c].Running? then
        var m := s.phase[c].m;
        s.(phase := s.phase[c := Waiting],
           place := if arrives then s.place[m := if h.ReturnsAck? then Gone else Ready] else s.place,
           ackedRun := if h.ReturnsAck? then s.ackedRun + {m} else s.ackedRun)
      else s
  }

  function Step(early: bool, s: Sys, a: Action): Sys {
    if Enabled(early, s, a) then Apply(s, a) else s
  }

  function Exec(early: bool, acts: seq<Action>): Sys {
    if acts == [] then START else Step(early, Exec(early, acts[..|acts| - 1]), acts[|acts| - 1])
  }

  // --- invariants ----------------------------------------------------------------------------

  /** What an open connection's client has not settled, that connection holds. */
  ghost predicate HoldsIts(early: bool, s: Sys, c: nat, m: nat) {
    && (c in s.up && m in Buffer(s, c) ==> m in s.place && s.place[m] == Held(c))
    && (!early && c in s.up && c in s.phase && s.phase[c] == Running(m) ==>
          m in s.place && s.place[m] == Held(c) && m !in Buffer(s, c))
  }

  ghost predicate HolderUp(s: Sys, m: nat) {
    m in s.place && s.place[m].Held? ==> s.place[m].c in s.up
  }

  ghost predicate Late(s: Sys, m: nat) {
    m in s.place && s.place[m].Gone? ==> m in s.ackedRun
  }

  function AckedBy(phase: map<nat, Phase>, m: nat): set<nat> {
    set c | c in phase && phase[c] == Acked(m)
  }

  /** Early: runs so far and runs to come are paid for by acks lost or the one that arrived. */
  ghost predicate Early(s: Sys, m: nat) {
    At(s.runs, m) + |AckedBy(s.phase, m)| <= At(s.lost, m) + if m in s.place && s.place[m].Gone? then 1 else 0
  }

  ghost predicate Inv(early: bool, s: Sys) {
    && (forall c: nat, m: nat :: HoldsIts(early, s, c, m))
    && (forall m: nat :: HolderUp(s, m))
    && (forall m: nat :: if early then Early(s, m) else Late(s, m))
  }

  lemma HoldsKept(early: bool, s: Sys, a: Action, c: nat, m: nat)
    requires Inv(early, s) && Enabled(early, s, a)
    ensures HoldsIts(early, Apply(s, a), c, m)
  {
    assert HoldsIts(early, s, c, m);
    if a.AckEarly? || a.RunLate? { assert HoldsIts(early, s, a.c, a.m); }
    if a.FinishLate? && s.phase[a.c].Running? { assert HoldsIts(early, s, a.c, s.phase[a.c].m); }
  }

  lemma HolderKept(early: bool, s: Sys, a: Action, m: nat)
    requires HolderUp(s, m) && Enabled(early, s, a)
    ensures HolderUp(Apply(s, a), m)
  {
  }

  lemma LateKept(s: Sys, a: Action, m: nat)
    requires Late(s, m) && Enabled(false, s, a)
    ensures Late(Apply(s, a), m)
  {
  }

  lemma AckedUpdate(phase: map<nat, Phase>, c: nat, p: Phase, m: nat)
    ensures AckedBy(phase[c := p], m) == if p == Acked(m) then AckedBy(phase, m) + {c} else AckedBy(phase, m) - {c}
  {
  }

  /** How many clients have acked `m` and not begun it, after an action that moves client `c`. */
  lemma AckedCount(phase: map<nat, Phase>, c: nat, p: Phase, m: nat)
    requires c in phase
    ensures |AckedBy(phase[c := p], m)| ==
            |AckedBy(phase, m)| + (if p == Acked(m) then 1 else 0) - (if phase[c] == Acked(m) then 1 else 0)
  {
    AckedUpdate(phase, c, p, m);
  }

  lemma AckedAfterDeath(phase: map<nat, Phase>, c: nat, m: nat)
    ensures |AckedBy(phase - {c}, m)| <= |AckedBy(phase, m)|
  {
    assert AckedBy(phase - {c}, m) == AckedBy(phase, m) - {c};
  }

  function Moved(s: Sys, a: Action): map<nat, Phase> {
    match a
    case Connect(c) => s.phase[c := Waiting]
    case AckEarly(c, m, _) => s.phase[c := Acked(m)]
    case RunEarly(c) => if c in s.phase && s.phase[c].Acked? then s.phase[c := Running(s.phase[c].m)] else s.phase
    case FinishEarly(c) => s.phase[c := Waiting]
    case Dies(c) => s.phase - {c}
    case _ => s.phase
  }

  lemma PhaseAfter(s: Sys, a: Action)
    requires Enabled(true, s, a)
    ensures Apply(s, a).phase == Moved(s, a)
  {
  }

  predicate IsGone(s: Sys, m: nat) { m in s.place && s.place[m].Gone? }

  lemma GoneAfterRest(s: Sys, a: Action, m: nat)
    requires Enabled(true, s, a) && !a.AckEarly?
    ensures IsGone(Apply(s, a), m) == IsGone(s, m)
  {
  }

  lemma EarlyKept(s: Sys, a: Action, m: nat)
    requires Inv(true, s) && Enabled(true, s, a)
    ensures Early(Apply(s, a), m)
  {
    assert Early(s, m);
    PhaseAfter(s, a);
    if a.AckEarly? {
      assert HoldsIts(true, s, a.c, a.m);
      AckedCount(s.phase, a.c, Acked(a.m), m);
    } else {
      GoneAfterRest(s, a, m);
      match a
      case RunEarly(c) => AckedCount(s.phase, c, Running(s.phase[c].m), m);
      case FinishEarly(c) => AckedCount(s.phase, c, Waiting, m);
      case Connect(c) => AckedUpdate(s.phase, c, Waiting, m); assert c !in AckedBy(s.phase, m);
      case Dies(c) => AckedAfterDeath(s.phase, c, m);
      case _ =>
    }
  }

  lemma StepKeepsInv(early: bool, s: Sys, a: Action)
    requires Inv(early, s)
    ensures Inv(early, Step(early, s, a))
  {
    if Enabled(early, s, a) {
      var s' := Apply(s, a);
      forall c: nat, m: nat ensures HoldsIts(early, s', c, m) { HoldsKept(early, s, a, c, m); }
      forall m: nat ensures HolderUp(s', m) { HolderKept(early, s, a, m); }
      forall m: nat ensures if early then Early(s', m) else Late(s', m) {
        if early { EarlyKept(s, a, m); } else { LateKept(s, a, m); }
      }
    }
  }

  lemma {:induction false} ExecInv(early: bool, acts: seq<Action>)
    ensures Inv(early, Exec(early, acts))
  {
    if acts == [] {
      assert forall m: nat :: AckedBy(START.phase, m) == {};
    } else {
      ExecInv(early, acts[..|acts| - 1]);
      StepKeepsInv(early, Exec(early, acts[..|acts| - 1]), acts[|acts| - 1]);
    }
  }

  /** Late: a message leaves the queue only after a handler run on it returned ACK; any other
      message is on the queue or held by an open connection, whose end puts it back. */
  lemma LateLosesNothing(acts: seq<Action>, m: nat)
    requires m in Exec(false, acts).place
    ensures var s := Exec(false, acts);
            && (s.place[m].Gone? ==> m in s.ackedRun)
            && (m !in s.ackedRun ==> s.place[m].Ready? || (s.place[m].Held? && s.place[m].c in s.up))
            && (s.place[m].Held? ==> var s' := Exec(false, acts + [BrokerDrops(s.place[m].c)]); m in s'.place && s'.place[m].Ready?)
            && (s.place[m].Held? && s.place[m].c in s.phase ==>
                  var s' := Exec(false, acts + [Dies(s.place[m].c)]); m in s'.place && s'.place[m].Ready?)
  {
    ExecInv(false, acts);
    assert Late(Exec(false, acts), m) && HolderUp(Exec(false, acts), m);
    forall a ensures Exec(false, acts + [a]) == Step(false, Exec(false, acts), a) {
      assert (acts + [a])[..|acts|] == acts;
    }
  }

  // --- the callback as a run of actions ---------------------------------------------------------

  /** The actions of one callback that completes; `arrives` says whether the broker gets its
      settlement. */
  function CallbackActions(early: bool, c: nat, m: nat, h: Handling, arrives: bool): seq<Action> {
    if early then [AckEarly(c, m, arrives), RunEarly(c), FinishEarly(c)] else [RunLate(c, m), FinishLate(c, h, arrives)]
  }

  /** Where a settlement that arrives puts its message. */
  function SettledPlace(e: Event): Place
    requires IsSettle(e)
  {
    if e.Ack? then Gone else Ready
  }

  function SettleOf(early: bool, m: nat, h: Handling): Event {
    if early || h.ReturnsAck? then Ack(m) else Nack(m)
  }

  /** The actions of a callback, from any state in which the client can begin it, run the handler
      once, leave the client waiting, and put the message where the one settlement among the
      callback's events says if that arrives, and nowhere else if it does not. */
  lemma CallbackRuns(early: bool, acts: seq<Action>, c: nat, m: nat, h: Handling, arrives: bool)
    requires var s := Exec(early, acts);
             c in s.phase && s.phase[c].Waiting? && m in Buffer(s, c) && (arrives ==> c in s.up)
    ensures var s := Exec(early, acts); var s' := Exec(early, acts + CallbackActions(early, c, m, h, arrives));
            && At(s'.runs, m) == At(s.runs, m) + 1
            && c in s'.phase && s'.phase[c].Waiting?
            && s'.place == (if arrives then s.place[m := SettledPlace(SettleOf(early, m, h))] else s.place)
            && At(s'.lost, m) == At(s.lost, m) + if early && !arrives then 1 else 0
    ensures forall e :: e in Callback(early, true, m, h) && IsSettle(e) <==> e == SettleOf(early, m, h)
  {
    if early { EarlyCallback(acts, c, m, arrives); } else { LateCallback(acts, c, m, h, arrives); }
  }

  lemma Then(early: bool, acts: seq<Action>, a: Action)
    ensures Exec(early, acts + [a]) == Step(early, Exec(early, acts), a)
  {
    assert (acts + [a])[..|acts|] == acts;
  }

  lemma EarlyCallback(acts: seq<Action>, c: nat, m: nat, arrives: bool)
    requires Enabled(true, Exec(true, acts), AckEarly(c, m, arrives))
    ensures var s := Exec(true, acts); var s' := Exec(true, acts + [AckEarly(c, m, arrives), RunEarly(c), FinishEarly(c)]);
            && At(s'.runs, m) == At(s.runs, m) + 1 && c in s'.phase && s'.phase[c].Waiting?
            && s'.place == (if arrives then s.place[m := Gone] else s.place)
            && At(s'.lost, m) == At(s.lost, m) + if arrives then 0 else 1
  {
    var a1 := acts + [AckEarly(c, m, arrives)];
    Then(true, acts, AckEarly(c, m, arrives));
    Then(true, a1, RunEarly(c));
    Then(true, a1 + [RunEarly(c)], FinishEarly(c));
    assert a1 + [RunEarly(c)] + [FinishEarly(c)] == acts + [AckEarly(c, m, arrives), RunEarly(c), FinishEarly(c)];
  }

  lemma LateCallback(acts: seq<Action>, c: nat, m: nat, h: Handling, arrives: bool)
    requires Enabled(false, Exec(false, acts), RunLate(c, m)) && (arrives ==> c in Exec(false, acts).up)
    ensures var s := Exec(false, acts); var s' := Exec(false, acts + [RunLate(c, m), FinishLate(c, h, arrives)]);
            && At(s'.runs, m) == At(s.runs, m) + 1 && c in s'.phase && s'.phase[c].Waiting?
            && s'.place == (if arrives then s.place[m := if h.ReturnsAck? then Gone else Ready] else s.place)
            && s'.lost == s.lost
  {
    var a1 := acts + [RunLate(c, m)];
    Then(false, acts, RunLate(c, m));
    Then(false, a1, FinishLate(c, h, arrives));
    assert a1 + [FinishLate(c, h, arrives)] == acts + [RunLate(c, m), FinishLate(c, h, arrives)];
  }

  /** Early: a handler run past the first costs an ack that did not arrive, and a message whose
      acks all arrive is run at most once. */
  lemma EarlyRunsAtMostOnce(acts: seq<Action>, m: nat)
    ensures At(Exec(true, acts).runs, m) <= 1 + At(Exec(true, acts).lost, m)
    ensures At(Exec(true, acts).lost, m) == 0 && At(Exec(true, acts).runs, m) > 0 ==>
              m in Exec(true, acts).place && Exec(true, acts).place[m].Gone? && At(Exec(true, acts).runs, m) == 1
  {
    ExecInv(true, acts);
    assert Early(Exec(true, acts), m);
  }

  /** The price of early acks: a crash between the ack and the handler loses the message, with no
      run to show for it. */
  lemma EarlyMayLose(acts: seq<Action>, c: nat, m: nat)
    requires var s := Exec(true, acts); Enabled(true, s, AckEarly(c, m, true))
    ensures var s' := Exec(true, acts + [AckEarly(c, m, true), Dies(c)]);
            IsGone(s', m) && At(s'.runs, m) == At(Exec(true, acts).runs, m)
  {
    var acked := acts + [AckEarly(c, m, true)];
    assert acked[..|acts|] == acts;
    assert (acts + [AckEarly(c, m, true), Dies(c)])[..|acked|] == acked;
    ExecInv(true, acked);
  }
}
