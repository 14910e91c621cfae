/**
 Extraction of many binaries under one time budget
 (backend/assemblage/dwarf/isolated.py, extract_each).
 */
module PhaseBudget {
  import opened Wrappers

  /** One binary: the time its extraction wants, what it gives if it is let finish (None also
      stands for an extraction that raises), and the time the caller takes before the next. */
  datatype Job<T> = Job(need: real, result: Option<T>, pause: real)

  datatype Fate<T> = Skipped | Yielded(item: T, ended: real) | Failed(ended: real)

  predicate Timed<T>(jobs: seq<Job<T>>) {
    forall i :: 0 <= i < |jobs| ==> jobs[i].need >= 0.0 && jobs[i].pause >= 0.0
  }

  /** int(x): truncation toward zero. */
  function Trunc(x: real): int { if x >= 0.0 then x.Floor else -((-x).Floor) }

  /** The timeout one extraction is granted. */
  function Granted(timeout: int, remaining: int): int {
    var least := if timeout < remaining then timeout else remaining;
    if least > 1 then least else 1
  }

  function FateOf<T>(job: Job<T>, now: real, deadline: real, timeout: int): Fate<T> {
    var remaining := Trunc(deadline - now);
    if remaining <= 0 then Skipped
    else
      var granted := Granted(timeout, remaining) as real;
      if job.need > granted then Failed(now + granted)
      else if job.result.Some? then Yielded(job.result.value, now + job.need) else Failed(now + job.need)
  }

  function Clock<T>(fate: Fate<T>, job: Job<T>, now: real): real {
    (if fate.Skipped? then now else fate.ended) + job.pause
  }

  function Fates<T>(jobs: seq<Job<T>>, now: real, deadline: real, timeout: int): (fs: seq<Fate<T>>)
    ensures |fs| == |jobs|
  {
    if jobs == [] then []
    else
      var fate := FateOf(jobs[0], now, deadline, timeout);
      [fate] + Fates(jobs[1..], Clock(fate, jobs[0], now), deadline, timeout)
  }

  function Items<T>(fs: seq<Fate<T>>): seq<T> {
    if fs == [] then [] else (if fs[0].Yielded? then [fs[0].item] else []) + Items(fs[1..])
  }

  function CountSkipped<T>(fs: seq<Fate<T>>): nat {
    if fs == [] then 0 else (if fs[0].Skipped? then 1 else 0) + CountSkipped(fs[1..])
  }

  function CountFailed<T>(fs: seq<Fate<T>>): nat {
    if fs == [] then 0 else (if fs[0].Failed? then 1 else 0) + CountFailed(fs[1..])
  }

  method ExtractEach<T>(jobs: seq<Job<T>>, timeout: int, phase: int, start: real)
    returns (items: seq<T>, skipped: nat, failed: nat)
    ensures var fs := Fates(jobs, start, start + phase as real, timeout);
            items == Items(fs) && skipped == CountSkipped(fs) && failed == CountFailed(fs)
    ensures |items| + failed + skipped == |jobs|
  {
    var deadline := start + phase as real;
    ghost var fates := Fates(jobs, start, deadline, timeout);
    items, skipped, failed := [], 0, 0;
    var now := start;
    for i := 0 to |jobs|
      invariant Fates(jobs[i..], now, deadline, timeout) == fates[i..]
      invariant Items(fates) == items + Items(fates[i..])
      invariant CountSkipped(fates) == skipped + CountSkipped(fates[i..])
      invariant CountFailed(fates) == failed + CountFailed(fates[i..])
      invariant |items| + failed + skipped == i
    {
      var fate := FateOf(jobs[i], now, deadline, timeout);
      assert jobs[i..][0] == jobs[i] && jobs[i..][1..] == jobs[i + 1..];
      assert fates[i..][0] == fate && fates[i..][1..] == fates[i + 1..];
      now := Clock(fate, jobs[i], now);
      match fate
      case Skipped => skipped := skipped + 1;
      case Failed(_) => failed := failed + 1;
      case Yielded(item, _) => items := items + [item];
    }
  }

  /** A binary is skipped exactly when less than a second is left, and no extraction, whatever
      the per-binary timeout, ends past the deadline. */
  lemma FateExactly<T>(job: Job<T>, now: real, deadline: real, timeout: int)
    requires job.need >= 0.0
    ensures var fate := FateOf(job, now, deadline, timeout);
            && (fate.Skipped? <==> deadline - now < 1.0)
            && (!fate.Skipped? ==> now <= fate.ended <= deadline)
            && (fate.Yielded? <==> deadline - now >= 1.0 && job.result.Some?
                                   && job.need <= Granted(timeout, Trunc(deadline - now)) as real)
  {
  }

  /** For any number of binaries, extraction is over by the deadline. */
  lemma {:induction false} EndsByDeadline<T>(jobs: seq<Job<T>>, now: real, deadline: real, timeout: int, i: nat)
    requires Timed(jobs) && i < |jobs|
    ensures var fate := Fates(jobs, now, deadline, timeout)[i];
            !fate.Skipped? ==> now <= fate.ended <= deadline
  {
    FateExactly(jobs[0], now, deadline, timeout);
    if i > 0 {
      var fate := FateOf(jobs[0], now, deadline, timeout);
      EndsByDeadline(jobs[1..], Clock(fate, jobs[0], now), deadline, timeout, i - 1);
    }
  }

  /** Once one is skipped, all that follow are. */
  lemma {:induction false} SkippedIsSuffix<T>(jobs: seq<Job<T>>, now: real, deadline: real, timeout: int, i: nat, j: nat)
    requires Timed(jobs) && i <= j < |jobs| && Fates(jobs, now, deadline, timeout)[i].Skipped?
    ensures Fates(jobs, now, deadline, timeout)[j].Skipped?
  {
    FateExactly(jobs[0], now, deadline, timeout);
    var fate := FateOf(jobs[0], now, deadline, timeout);
    var later := Clock(fate, jobs[0], now);
    if i > 0 {
      SkippedIsSuffix(jobs[1..], later, deadline, timeout, i - 1, j - 1);
    } else if j > 0 {
      FateExactly(jobs[1], later, deadline, timeout);
      assert Fates(jobs[1..], later, deadline, timeout)[0] == FateOf(jobs[1], later, deadline, timeout);
      SkippedIsSuffix(jobs[1..], later, deadline, timeout, 0, j - 1);
    }
  }

  /** The places in the input the output comes from, in order. */
  ghost predicate InOrderFrom<T(!new)>(jobs: seq<Job<T>>, items: seq<T>, at: seq<nat>) {
    && |at| == |items|
    && (forall k :: 0 <= k < |at| ==> at[k] < |jobs| && jobs[at[k]].result == Some(items[k]))
    && (forall k, l :: 0 <= k < l < |at| ==> at[k] < at[l])
  }

  lemma {:induction false} OutputInOrder<T(!new)>(jobs: seq<Job<T>>, now: real, deadline: real, timeout: int)
    ensures exists at :: InOrderFrom(jobs, Items(Fates(jobs, now, deadline, timeout)), at)
  {
    if jobs == [] {
      assert InOrderFrom(jobs, Items(Fates(jobs, now, deadline, timeout)), []);
    } else {
      var fate := FateOf(jobs[0], now, deadline, timeout);
      var later := Clock(fate, jobs[0], now);
      OutputInOrder(jobs[1..], later, deadline, timeout);
      var rest := Items(Fates(jobs[1..], later, deadline, timeout));
      var at :| InOrderFrom(jobs[1..], rest, at);
      var items := Items(Fates(jobs, now, deadline, timeout));
      assert Fates(jobs, now, deadline, timeout)[1..] == Fates(jobs[1..], later, deadline, timeout);
      if fate.Yielded? {
        assert items == [fate.item] + rest;
        ShiftOne(jobs, rest, at, fate.item);
        assert InOrderFrom(jobs, items, [0] + Shift(at));
      } else {
        assert items == rest;
        ShiftOrder(jobs, rest, at);
      }
    }
  }

  function Shift(at: seq<nat>): seq<nat> { seq(|at|, k requires 0 <= k < |at| => at[k] + 1) }

  lemma ShiftOrder<T(!new)>(jobs: seq<Job<T>>, rest: seq<T>, at: seq<nat>)
    requires jobs != [] && InOrderFrom(jobs[1..], rest, at)
    ensures InOrderFrom(jobs, rest, Shift(at))
  {
  }

  lemma ShiftOne<T(!new)>(jobs: seq<Job<T>>, rest: seq<T>, at: seq<nat>, x: T)
    requires jobs != [] && InOrderFrom(jobs[1..], rest, at) && jobs[0].result == Some(x)
    ensures InOrderFrom(jobs, [x] + rest, [0] + Shift(at))
  {
    ShiftOrder(jobs, rest, at);
  }

  // --- each binary by itself ---------------------------------------------------------------------

  /** When the `i`-th binary's turn comes. */
  function TurnOf<T>(jobs: seq<Job<T>>, fs: seq<Fate<T>>, now: real, i: nat): real
    requires i <= |jobs| == |fs|
  {
    if i == 0 then now
    else (if fs[i - 1].Skipped? then TurnOf(jobs, fs, now, i - 1) else fs[i - 1].ended) + jobs[i - 1].pause
  }

  /** What comes of a binary at its turn: nothing with less than a second left; otherwise it may take
      its own timeout, but no more than the whole seconds left and no less than one. */
  ghost predicate Comes<T(!new)>(job: Job<T>, turn: real, deadline: real, timeout: int, fate: Fate<T>) {
    if deadline - turn < 1.0 then fate.Skipped?
    else exists granted: int :: IsGranted(granted, timeout, deadline - turn) && EndsWithin(job, turn, granted, fate)
  }

  ghost predicate EndsWithin<T(!new)>(job: Job<T>, turn: real, granted: int, fate: Fate<T>) {
    fate == if job.need <= granted as real && job.result.Some? then Yielded(job.result.value, turn + job.need)
            else if job.need <= granted as real then Failed(turn + job.need) else Failed(turn + granted as real)
  }

  ghost predicate IsGranted(granted: int, timeout: int, left: real) {
    && 1 <= granted && granted as real <= left
    && (timeout >= 1 && timeout as real <= left ==> granted == timeout)
    && (timeout < 1 ==> granted == 1)
    && (timeout as real > left ==> left < granted as real + 1.0)
  }

  lemma GrantedExactly(timeout: int, left: real)
    requires left >= 1.0
    ensures IsGranted(Granted(timeout, Trunc(left)), timeout, left)
  {
  }

  lemma ComesExactly<T(!new)>(job: Job<T>, turn: real, deadline: real, timeout: int)
    ensures Comes(job, turn, deadline, timeout, FateOf(job, turn, deadline, timeout))
  {
    if deadline - turn >= 1.0 {
      var granted := Granted(timeout, Trunc(deadline - turn));
      GrantedExactly(timeout, deadline - turn);
      assert EndsWithin(job, turn, granted, FateOf(job, turn, deadline, timeout));
    }
  }

  lemma TurnShift<T>(jobs: seq<Job<T>>, fs: seq<Fate<T>>, now: real, i: nat)
    requires 0 < i <= |jobs| == |fs|
    ensures TurnOf(jobs, fs, now, i) == TurnOf(jobs[1..], fs[1..], Clock(fs[0], jobs[0], now), i - 1)
  {
    if i > 1 { TurnShift(jobs, fs, now, i - 1); }
  }

  /** Every binary comes to what its turn allows. */
  lemma {:induction false} FatesExactly<T(!new)>(jobs: seq<Job<T>>, now: real, deadline: real, timeout: int, i: nat)
    requires i < |jobs|
    ensures var fs := Fates(jobs, now, deadline, timeout);
            Comes(jobs[i], TurnOf(jobs, fs, now, i), deadline, timeout, fs[i])
  {
    var fs := Fates(jobs, now, deadline, timeout);
    if i == 0 {
      ComesExactly(jobs[0], now, deadline, timeout);
    } else {
      FatesExactly(jobs[1..], Clock(fs[0], jobs[0], now), deadline, timeout, i - 1);
      TurnShift(jobs, fs, now, i);
      assert fs[1..] == Fates(jobs[1..], Clock(fs[0], jobs[0], now), deadline, timeout);
    }
  }

  /** The places of one kind, in order. */
  ghost predicate PlacesOf<T(!new)>(fs: seq<Fate<T>>, kind: Fate<T> -> bool, at: seq<nat>) {
    && (forall k, l :: 0 <= k < l < |at| ==> at[k] < at[l])
    && (forall i: nat :: i in at <==> i < |fs| && kind(fs[i]))
  }

  lemma InShift(at: seq<nat>, i: nat)
    ensures i in Shift(at) <==> i > 0 && i - 1 in at
  {
    if i > 0 && i - 1 in at {
      var k :| 0 <= k < |at| && at[k] == i - 1;
      assert Shift(at)[k] == i;
    }
  }

  lemma PlacesStep<T(!new)>(fs: seq<Fate<T>>, kind: Fate<T> -> bool, next: seq<nat>)
    requires fs != [] && PlacesOf(fs[1..], kind, next)
    ensures PlacesOf(fs, kind, if kind(fs[0]) then [0] + Shift(next) else Shift(next))
  {
    var at := if kind(fs[0]) then [0] + Shift(next) else Shift(next);
    forall i: nat ensures i in at <==> i < |fs| && kind(fs[i]) { InShift(next, i); }
  }

  lemma ItemsStep<T(!new)>(fs: seq<Fate<T>>, next: seq<nat>)
    requires fs != [] && HoldsItems(fs[1..], next)
    ensures HoldsItems(fs, if fs[0].Yielded? then [0] + Shift(next) else Shift(next))
  {
    var rest := Items(fs[1..]);
    assert Items(fs) == (if fs[0].Yielded? then [fs[0].item] else []) + rest;
    forall k | 0 <= k < |next| ensures next[k] + 1 < |fs| && fs[next[k] + 1].Yielded? && rest[k] == fs[next[k] + 1].item {
      assert fs[1..][next[k]] == fs[next[k] + 1];
    }
    if !fs[0].Yielded? { assert Items(fs) == rest; }
  }

  ghost predicate HoldsItems<T(!new)>(fs: seq<Fate<T>>, at: seq<nat>) {
    && |at| == |Items(fs)|
    && forall k :: 0 <= k < |at| ==> at[k] < |fs| && fs[at[k]].Yielded? && Items(fs)[k] == fs[at[k]].item
  }

  /** The output holds the item of every binary that yielded, in order. */
  lemma {:induction false} ItemsExactly<T(!new)>(fs: seq<Fate<T>>) returns (at: seq<nat>)
    ensures PlacesOf(fs, (f: Fate<T>) => f.Yielded?, at) && HoldsItems(fs, at)
  {
    at := [];
    if fs != [] {
      at := ItemsExactly(fs[1..]);
      PlacesStep(fs, (f: Fate<T>) => f.Yielded?, at);
      ItemsStep(fs, at);
      at := if fs[0].Yielded? then [0] + Shift(at) else Shift(at);
    }
  }

  /** One count is of the binaries skipped. */
  lemma {:induction false} SkippedExactly<T(!new)>(fs: seq<Fate<T>>) returns (at: seq<nat>)
    ensures PlacesOf(fs, (f: Fate<T>) => f.Skipped?, at) && |at| == CountSkipped(fs)
  {
    at := [];
    if fs != [] {
      at := SkippedExactly(fs[1..]);
      PlacesStep(fs, (f: Fate<T>) => f.Skipped?, at);
      at := if fs[0].Skipped? then [0] + Shift(at) else Shift(at);
    }
  }

  /** The other of those that failed. */
  lemma {:induction false} FailedExactly<T(!new)>(fs: seq<Fate<T>>) returns (at: seq<nat>)
    ensures PlacesOf(fs, (f: Fate<T>) => f.Failed?, at) && |at| == CountFailed(fs)
  {
    at := [];
    if fs != [] {
      at := FailedExactly(fs[1..]);
      PlacesStep(fs, (f: Fate<T>) => f.Failed?, at);
      at := if fs[0].Failed? then [0] + Shift(at) else Shift(at);
    }
  }
}
