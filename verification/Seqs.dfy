/** Putting sequences together. */
module Seqs {

  function Concat<T>(parts: seq<seq<T>>): seq<T> {
    if parts == [] then [] else Concat(parts[..|parts| - 1]) + parts[|parts| - 1]
  }

  lemma Assoc<T>(x: seq<T>, y: seq<T>, z: seq<T>)
    ensures (x + y) + z == x + (y + z)
  {
  }

  lemma NoneAfter<T>(x: seq<T>)
    ensures x + [] == x
  {
  }

  lemma {:induction false} ConcatAppend<T>(a: seq<seq<T>>, b: seq<seq<T>>)
    ensures Concat(a + b) == Concat(a) + Concat(b)
  {
    if b == [] {
      assert a + b == a;
    } else {
      var n := |b| - 1;
      ConcatAppend(a, b[..n]);
      assert (a + b)[..|a + b| - 1] == a + b[..n];
      Assoc(Concat(a), Concat(b[..n]), b[n]);
    }
  }

  lemma ConcatOneMore<T>(parts: seq<seq<T>>, last: seq<T>)
    ensures Concat(parts + [last]) == Concat(parts) + last
  {
    assert (parts + [last])[..|parts|] == parts;
  }

  lemma ConcatHead<T>(first: seq<T>, rest: seq<seq<T>>)
    ensures Concat([first] + rest) == first + Concat(rest)
  {
    ConcatAppend([first], rest);
    assert Concat([first]) == first by { assert [first][..0] == []; }
  }

  /** What is in the whole is in one of the parts, and conversely. */
  lemma {:induction false} ConcatHolds<T>(parts: seq<seq<T>>, x: T)
    ensures x in Concat(parts) <==> exists i :: 0 <= i < |parts| && x in parts[i]
  {
    if parts != [] {
      var n := |parts| - 1;
      ConcatHolds(parts[..n], x);
      assert forall i :: 0 <= i < n ==> parts[..n][i] == parts[i];
      assert Concat(parts) == Concat(parts[..n]) + parts[n];
    }
  }
}
