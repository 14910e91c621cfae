/**
 The confirming publisher: bounded retries, returning only after a broker confirm
 (backend/assemblage/mq/publisher.py).
 */
module Publisher {
  import opened Wrappers

  /** What the broker makes of one attempt. A connection may be lost before or after the message
      was queued. */
  datatype Attempt =
    | Confirmed
    | Unroutable
    | Nacked(queued: bool)
    | Lost(queued: bool)
    | OtherError(queued: bool)

  datatype Result = Returned | PublishError | Escaped

  class Queue<T> {
    var msgs: seq<T>

    constructor ()
      ensures msgs == []
    {
      msgs := [];
    }
  }

  /** What a passive declare comes to: the queue answers, the broker closes the channel because
      there is no such queue, or the connection fails. */
  datatype DepthAnswer = Answered | NoQueue | Unreachable

  predicate LeavesCopy(a: Attempt) {
    match a
    case Confirmed => true
    case Unroutable => false
    case Nacked(q) => q
    case Lost(q) => q
    case OtherError(q) => q
  }

  function Copies(attempts: seq<Attempt>): nat {
    if attempts == [] then 0
    else Copies(attempts[..|attempts| - 1]) + if LeavesCopy(attempts[|attempts| - 1]) then 1 else 0
  }

  function Repeat<T>(body: T, n: nat): seq<T> { seq(n, _ => body) }

  /** The attempts made are the lost ones at the front and the first that was not lost. */
  ghost predicate IsRun(script: seq<Attempt>, max: nat, made: nat) {
    && made <= max <= |script|
    && (forall k :: 0 <= k < made - 1 ==> script[k].Lost?)
    && (made < max ==> made > 0 && !script[made - 1].Lost?)
  }

  ghost predicate ConfirmedAt(script: seq<Attempt>, max: nat, k: nat) {
    k < max <= |script| && script[k].Confirmed? && forall j :: 0 <= j < k ==> script[j].Lost?
  }

  /** The copies the attempts made leave on the queue. */
  ghost predicate LeavesCopies(script: seq<Attempt>, max: nat, copies: nat) {
    exists made: nat :: IsRun(script, max, made) && copies == Copies(script[..made])
  }

  lemma {:induction false} CopiesBound(attempts: seq<Attempt>)
    ensures Copies(attempts) <= |attempts|
    ensures Copies(attempts) == 0 <==> forall a :: a in attempts ==> !LeavesCopy(a)
  {
    if attempts != [] {
      var n := |attempts| - 1;
      CopiesBound(attempts[..n]);
      assert forall a :: a in attempts <==> a in attempts[..n] || a == attempts[n];
    }
  }

  /** A confirm inside the bound, after nothing but lost connections, is what a return means:
      the call has then queued at least one copy, and at most one for each attempt. */
  lemma ReturnMeansConfirmed(script: seq<Attempt>, max: nat, made: nat)
    requires IsRun(script, max, made)
    ensures (made > 0 && script[made - 1].Confirmed?) <==> exists k :: ConfirmedAt(script, max, k)
    ensures made > 0 && script[made - 1].Confirmed? ==> 1 <= Copies(script[..made]) <= made
  {
    CopiesBound(script[..made]);
    if made > 0 && script[made - 1].Confirmed? {
      assert ConfirmedAt(script, max, made - 1);
      assert script[..made][made - 1] in script[..made];
    }
    if k: nat :| ConfirmedAt(script, max, k) {
      assert k >= made - 1;
    }
  }

  class Publisher {
    const maxAttempts: nat
    var connected: bool

    constructor (max: nat)
      ensures maxAttempts == max && !connected
    {
      maxAttempts, connected := max, false;
    }

    /** How many messages wait; 0 for a queue that is not there; None if the query raises. */
    method QueueDepth<T>(queue: Queue<T>, answer: DepthAnswer) returns (depth: Option<nat>)
      modifies this
      ensures depth == match answer
                       case Answered => Some(|queue.msgs|)
                       case NoQueue => Some(0)
                       case Unreachable => None
      ensures connected == answer.Answered?
    {
      match answer
      case Answered => connected := true; depth := Some(|queue.msgs|);
      case NoQueue => connected := false; depth := Some(0);
      case Unreachable => connected := false; depth := None;
    }

    method Publish<T>(queue: Queue<T>, body: T, script: seq<Attempt>) returns (r: Result, made: nat)
      requires maxAttempts <= |script|
      modifies this, queue
      ensures IsRun(script, maxAttempts, made)
      ensures r == Returned <==> made > 0 && script[made - 1].Confirmed?
      ensures r == Escaped <==> made > 0 && script[made - 1].OtherError?
      ensures queue.msgs == old(queue.msgs) + Repeat(body, Copies(script[..made]))
      ensures made > 0 ==> connected == !script[made - 1].Lost?
    {
      made := 0;
      while made < maxAttempts
        invariant made <= maxAttempts
        invariant forall k :: 0 <= k < made ==> script[k].Lost?
        invariant queue.msgs == old(queue.msgs) + Repeat(body, Copies(script[..made]))
        invariant made > 0 ==> !connected
      {
        var outcome := script[made];
        connected := true;
        assert script[..made + 1][..made] == script[..made];
        if LeavesCopy(outcome) {
          queue.msgs := queue.msgs + [body];
        }
        made := made + 1;
        match outcome
        case Confirmed => return Returned, made;
        case Unroutable | Nacked(_) => return PublishError, made;
        case OtherError(_) => return Escaped, made;
        case Lost(_) => connected := false;
      }
      r := PublishError;
    }
  }
}
