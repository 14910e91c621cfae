/**
 The crawler's bundling queue (backend/assemblage/scraper/app.py).
 */
module Scraper {
  import opened Wrappers
  import opened Seqs

  datatype Policy = Continuous | OnRequest

  /** One round of the waiting loop: whether shutdown has begun, whether a bundle was requested,
      and whether the publish this causes is confirmed. */
  datatype Poll = Poll(requested: bool, confirmed: bool, stop: bool)

  /** One repository the search yields, and what happens around it. `stop` is shutdown as the loop
      sees it before the repository, `stopping` as the waiting loop first sees it. */
  datatype Turn<R> = Turn(stop: bool, repo: R, policy: Policy, confirmed: bool, stopping: bool, polls: seq<Poll>)

  /** How a run of the crawl loop ends; a run still waiting for a request is cut off there. */
  datatype End = Finished | Stopped | Raised | Waiting

  /** How the wait of a full bundler ends, for a positive size: at the first request or at the
      first sight of shutdown, whichever comes first. */
  function PollEnd(polls: seq<Poll>): End {
    if polls == [] then Waiting
    else if polls[0].requested then if polls[0].confirmed then Finished else Raised
    else if polls[0].stop then Stopped
    else PollEnd(polls[1..])
  }

  function TakeEnd<R>(t: Turn<R>, held: nat, size: int): End {
    if held + 1 < size then Finished
    else if t.policy.OnRequest? then if t.stopping then Stopped else PollEnd(t.polls)
    else if t.confirmed then Finished else Raised
  }

  /** How a run ends and how many repositories it has cached by then, for a positive size. */
  function CrawlEnd<R>(turns: seq<Turn<R>>, held: nat, size: int): (End, nat) {
    if turns == [] then (Finished, 0)
    else if turns[0].stop then (Stopped, 0)
    else
      var e := TakeEnd(turns[0], held, size);
      if e != Finished then (e, 1)
      else
        var (end, n) := CrawlEnd(turns[1..], if held + 1 >= size then 0 else held + 1, size);
        (end, n + 1)
  }

  /** Keeps its cache across runs of the service. `bundles` are those confirmed so far. */
  class RepoBundler<R> {
    const size: int
    var cache: seq<R>
    var totalSent: nat
    ghost var added: seq<R>
    ghost var bundles: seq<seq<R>>

    /** Confirmed bundles followed by the cache are what was added, in order. */
    ghost predicate Valid()
      reads this
    {
      Concat(bundles) + cache == added && totalSent == |Concat(bundles)| && [] !in bundles
    }

    constructor (size: int)
      ensures Valid() && this.size == size && added == [] && bundles == []
    {
      this.size, cache, totalSent, added, bundles := size, [], 0, [], [];
    }

    predicate Full()
      reads this
    {
      |cache| >= size
    }

    method Add(repo: R)
      requires Valid()
      modifies this`cache, this`added
      ensures Valid() && added == old(added) + [repo] && cache == old(cache) + [repo]
    {
      Assoc(Concat(bundles), cache, [repo]);
      cache := cache + [repo];
      added := added + [repo];
    }

    /** Sends the cache as one bundle; None if the publish raises, with the cache kept. */
    method Flush(confirmed: bool) returns (sent: Option<nat>)
      requires Valid()
      modifies this`cache, this`totalSent, this`bundles
      ensures Valid()
      ensures sent == if old(cache) == [] then Some(0) else if confirmed then Some(|old(cache)|) else None
      ensures sent.None? ==> cache == old(cache)
      ensures sent.Some? ==> cache == []
      ensures bundles == if sent.Some? && old(cache) != [] then old(bundles) + [old(cache)] else old(bundles)
    {
      if cache == [] { return Some(0); }
      if !confirmed { return None; }
      ConcatOneMore(bundles, cache);
      totalSent, bundles := totalSent + |cache|, bundles + [cache];
      sent := Some(|cache|);
      cache := [];
    }

    /** Waits, while the cache is full, for a request to send it. */
    method AwaitRequest(stopping: bool, polls: seq<Poll>) returns (end: End)
      requires Valid() && Full() && cache != []
      modifies this`cache, this`totalSent, this`bundles
      ensures Valid()
      ensures end == Finished ==> bundles == old(bundles) + [old(cache)] && cache == []
      ensures end != Finished ==>
                (bundles == old(bundles) && cache == old(cache)) || (size <= 0 && cache == [] && bundles == old(bundles) + [old(cache)])
      ensures size > 0 ==> end == if stopping then Stopped else PollEnd(polls)
    {
      if stopping { return Stopped; }
      for n := 0 to |polls|
        invariant Valid() && Full()
        invariant size > 0 ==> PollEnd(polls) == PollEnd(polls[n..])
        invariant (bundles == old(bundles) && cache == old(cache)) || (size <= 0 && cache == [] && bundles == old(bundles) + [old(cache)])
      {
        assert polls[n..][0] == polls[n] && polls[n..][1..] == polls[n + 1..];
        if polls[n].requested {
          var sent := Flush(polls[n].confirmed);
          if sent.None? { return Raised; }
          if !Full() { return Finished; }
        }
        if polls[n].stop { return Stopped; }
      }
      return Waiting;
    }

    /** Caches one repository, then sends as the policy says. With a positive size the cache is
        sent exactly when it is full. */
    method Take(t: Turn<R>) returns (end: End)
      requires Valid()
      modifies this
      ensures Valid() && added == old(added) + [t.repo]
      ensures old(bundles) <= bundles
      ensures t.policy == Continuous ==> end == Finished || end == Raised
      ensures size > 0 ==> end == TakeEnd(t, |old(cache)|, size)
      ensures size > 0 && end == Finished ==>
                if |old(cache)| + 1 >= size then cache == [] && bundles == old(bundles) + [old(cache) + [t.repo]]
                else cache == old(cache) + [t.repo] && bundles == old(bundles)
      ensures size > 0 && end != Finished ==> cache == old(cache) + [t.repo] && bundles == old(bundles)
    {
      Add(t.repo);
      end := Finished;
      if Full() {
        match t.policy
        case Continuous =>
          var sent := Flush(t.confirmed);
          if sent.None? { return Raised; }
        case OnRequest =>
          end := AwaitRequest(t.stopping, t.polls);
      }
    }
  }

  function Repos<R>(turns: seq<Turn<R>>): seq<R> {
    seq(|turns|, i requires 0 <= i < |turns| => turns[i].repo)
  }

  /** The first bundle of a run takes what the cache held before; every later one has the size. */
  ghost predicate Sized<R>(bundles: seq<seq<R>>, before: nat, held: nat, size: int) {
    forall i :: before <= i < |bundles| ==> |bundles[i]| == if i == before && held >= size then held + 1 else size
  }

  lemma SizedOneMore<R>(bundles: seq<seq<R>>, last: seq<R>, before: nat, held: nat, size: int)
    requires Sized(bundles, before, held, size) && before <= |bundles|
    requires |last| == if |bundles| == before && held >= size then held + 1 else size
    ensures Sized(bundles + [last], before, held, size)
  {
  }

  /** One run of the crawl loop: every repository is cached before anything else happens, except
      the one in hand when shutdown is seen. */
  method Crawl<R>(b: RepoBundler<R>, turns: seq<Turn<R>>) returns (end: End, seen: nat)
    requires b.Valid()
    modifies b
    ensures b.Valid() && seen <= |turns|
    ensures b.added == old(b.added) + Repos(turns[..seen])
    ensures end == Finished ==> seen == |turns|
    ensures end == Stopped && seen < |turns| && (seen == 0 || turns[seen - 1].policy == Continuous) ==> turns[seen].stop
    ensures old(b.bundles) <= b.bundles
    ensures b.size > 0 ==> Sized(b.bundles, |old(b.bundles)|, |old(b.cache)|, b.size)
    ensures b.size > 0 ==> (end, seen) == CrawlEnd(turns, |old(b.cache)|, b.size)
    ensures b.size > 0 && end == Finished && seen > 0 ==> |b.cache| < b.size
  {
    ghost var before, held := |b.bundles|, |b.cache|;
    seen := 0;
    while seen < |turns|
      invariant b.Valid() && seen <= |turns|
      invariant b.added == old(b.added) + Repos(turns[..seen])
      invariant old(b.bundles) <= b.bundles
      invariant b.size > 0 ==> Sized(b.bundles, before, held, b.size)
      invariant b.size > 0 ==> var (e, k) := CrawlEnd(turns[seen..], |b.cache|, b.size);
                               CrawlEnd(turns, held, b.size) == (e, k + seen)
      invariant seen == 0 ==> b.bundles == old(b.bundles) && b.cache == old(b.cache)
      invariant b.size > 0 && seen > 0 && held >= b.size ==> |b.bundles| > before
      invariant b.size > 0 && (seen > 0 || held < b.size) ==> |b.cache| < b.size
    {
      var t := turns[seen];
      assert turns[seen..][0] == t && turns[seen..][1..] == turns[seen + 1..];
      if t.stop { return Stopped, seen; }
      ghost var was, cached := b.bundles, b.cache;
      end := b.Take(t);
      assert Repos(turns[..seen + 1]) == Repos(turns[..seen]) + [t.repo];
      if b.size > 0 && |b.bundles| > |was| { SizedOneMore(was, cached + [t.repo], before, held, b.size); }
      seen := seen + 1;
      if end != Finished { return end, seen; }
    }
    end := Finished;
  }

  /** Any number of runs, the bundler outliving each: conservation over all of them, whatever
      publishes fail, policies change or runs break off. */
  method CrawlAll<R>(b: RepoBundler<R>, runs: seq<seq<Turn<R>>>) returns (taken: seq<R>)
    requires b.Valid()
    modifies b
    ensures b.Valid()
    ensures b.added == old(b.added) + taken
    ensures Concat(b.bundles) + b.cache == old(Concat(b.bundles) + b.cache) + taken
  {
    taken := [];
    for i := 0 to |runs|
      invariant b.Valid() && b.added == old(b.added) + taken
    {
      var end, seen := Crawl(b, runs[i]);
      Assoc(old(b.added), taken, Repos(runs[i][..seen]));
      taken := taken + Repos(runs[i][..seen]);
    }
  }

  // --- how a run ends, turn by turn -------------------------------------------------------------------

  /** The first poll that is a request or sees shutdown. */
  ghost predicate FirstSign(polls: seq<Poll>, k: nat) {
    k < |polls| && (polls[k].requested || polls[k].stop) && forall j :: 0 <= j < k ==> !polls[j].requested && !polls[j].stop
  }

  /** The wait ends at its first sign: a request whose publish is confirmed or not, or shutdown if it
      was no request; with no sign it goes on. */
  lemma {:induction false} PollEndExactly(polls: seq<Poll>, k: nat)
    ensures FirstSign(polls, k) ==>
              && (PollEnd(polls).Finished? <==> polls[k].requested && polls[k].confirmed)
              && (PollEnd(polls).Raised? <==> polls[k].requested && !polls[k].confirmed)
              && (PollEnd(polls).Stopped? <==> !polls[k].requested)
    ensures PollEnd(polls).Waiting? <==> forall j :: 0 <= j < |polls| ==> !polls[j].requested && !polls[j].stop
  {
    if polls != [] {
      PollEndExactly(polls[1..], if k > 0 then k - 1 else 0);
      assert forall j :: 0 < j < |polls| ==> polls[1..][j - 1] == polls[j];
    }
  }

  /** What the cache holds before turn `k`, if no turn before it fails. */
  function HeldAt(held: nat, k: nat, size: int): nat {
    if k == 0 then held
    else if HeldAt(held, k - 1, size) + 1 < size then HeldAt(held, k - 1, size) + 1 else 0
  }

  lemma {:induction false} HeldShift(held: nat, k: nat, size: int)
    requires k > 0
    ensures HeldAt(held, k, size) == HeldAt(if held + 1 < size then held + 1 else 0, k - 1, size)
  {
    if k > 1 {
      HeldShift(held, k - 1, size);
    } else {
      assert HeldAt(held, 0, size) == held;
    }
  }

  /** What sending a full cache comes to. */
  ghost predicate EndsAs<R>(t: Turn<R>, end: End) {
    if t.policy.Continuous? then end == if t.confirmed then Finished else Raised
    else if t.stopping then end == Stopped else end == PollEnd(t.polls)
  }

  ghost predicate GoesOn<R>(turns: seq<Turn<R>>, held: nat, size: int, k: nat) {
    k < |turns| && !turns[k].stop && (HeldAt(held, k, size) + 1 >= size ==> EndsAs(turns[k], Finished))
  }

  /** A run goes on turn by turn up to one that sees shutdown, or cannot send a full cache, or to the
      end. */
  ghost predicate RunEnds<R>(turns: seq<Turn<R>>, held: nat, size: int, end: End, n: nat) {
    if end == Finished then n == |turns| && forall k: nat :: k < n ==> GoesOn(turns, held, size, k)
    else if n < |turns| && turns[n].stop && end == Stopped && (n > 0 ==> GoesOn(turns, held, size, n - 1))
    then forall k: nat :: k < n ==> GoesOn(turns, held, size, k)
    else
      && 0 < n <= |turns| && !turns[n - 1].stop && HeldAt(held, n - 1, size) + 1 >= size && EndsAs(turns[n - 1], end)
      && forall k: nat :: k < n - 1 ==> GoesOn(turns, held, size, k)
  }

  lemma GoesOnShift<R>(turns: seq<Turn<R>>, held: nat, size: int, k: nat)
    requires 0 < k <= |turns|
    ensures GoesOn(turns, held, size, k) <==> GoesOn(turns[1..], if held + 1 < size then held + 1 else 0, size, k - 1)
  {
    HeldShift(held, k, size);
  }

  lemma RunEndsShift<R>(turns: seq<Turn<R>>, held: nat, size: int, end: End, n: nat)
    requires turns != [] && GoesOn(turns, held, size, 0)
    requires RunEnds(turns[1..], if held + 1 < size then held + 1 else 0, size, end, n)
    ensures RunEnds(turns, held, size, end, n + 1)
  {
    forall k: nat | 0 < k <= |turns|
      ensures GoesOn(turns, held, size, k) <==> GoesOn(turns[1..], if held + 1 < size then held + 1 else 0, size, k - 1)
    {
      GoesOnShift(turns, held, size, k);
    }
    if n > 0 { HeldShift(held, n, size); }
  }

  lemma {:induction false} CrawlEndExactly<R>(turns: seq<Turn<R>>, held: nat, size: int)
    requires size > 0
    ensures RunEnds(turns, held, size, CrawlEnd(turns, held, size).0, CrawlEnd(turns, held, size).1)
  {
    if turns != [] && !turns[0].stop && TakeEnd(turns[0], held, size) == Finished {
      CrawlEndExactly(turns[1..], if held + 1 >= size then 0 else held + 1, size);
      assert HeldAt(held, 0, size) == held;
      RunEndsShift(turns, held, size, CrawlEnd(turns, held, size).0, CrawlEnd(turns, held, size).1 - 1);
    }
  }
}
