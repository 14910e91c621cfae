/**
 The string operations of the Python sources, on seq<char>. Case folding is ASCII only.
 */
module Text {

  // --- characters ---------------------------------------------------------------

  function LowerChar(c: char): char {
    if 'A' <= c <= 'Z' then (c as int + 32) as char else c
  }

  /** str.lower, for ASCII letters. */
  function Lower(s: string): (r: string)
    ensures |r| == |s|
    ensures forall i :: 0 <= i < |s| ==> r[i] == LowerChar(s[i])
  {
    seq(|s|, i requires 0 <= i < |s| => LowerChar(s[i]))
  }

  lemma LowerConcat(a: string, b: string)
    ensures Lower(a + b) == Lower(a) + Lower(b)
  {
  }

  lemma LowerIdempotent(s: string)
    ensures Lower(Lower(s)) == Lower(s)
  {
  }

  // --- searching ----------------------------------------------------------------

  ghost predicate OccursAt(s: string, w: string, i: int) {
    0 <= i && i + |w| <= |s| && s[i..i + |w|] == w
  }

  /** The `in` operator on two strings. */
  predicate Contains(s: string, w: string) {
    w <= s || (s != "" && Contains(s[1..], w))
  }

  lemma {:induction false} ContainsMeansOccurs(s: string, w: string)
    ensures Contains(s, w) <==> exists i :: OccursAt(s, w, i)
  {
    if w <= s {
      assert OccursAt(s, w, 0);
    } else if s != "" {
      ContainsMeansOccurs(s[1..], w);
      if i :| OccursAt(s[1..], w, i) {
        assert OccursAt(s, w, i + 1) by { assert s[i + 1..i + 1 + |w|] == s[1..][i..i + |w|]; }
      }
      if i :| OccursAt(s, w, i) {
        assert i != 0;
        assert OccursAt(s[1..], w, i - 1) by { assert s[i..i + |w|] == s[1..][i - 1..i - 1 + |w|]; }
      }
    } else {
      assert forall i :: OccursAt(s, w, i) ==> i == 0;
    }
  }

  predicate EndsWith(s: string, w: string) {
    |w| <= |s| && s[|s| - |w|..] == w
  }

  /** Position of the first `c` in `s`. */
  function FirstIndex(s: string, c: char): (i: nat)
    requires c in s
    ensures i < |s| && s[i] == c && c !in s[..i]
  {
    if s[0] == c then 0 else 1 + FirstIndex(s[1..], c)
  }

  /** Position of the last `c` in `s`. */
  function LastIndex(s: string, c: char): (i: nat)
    requires c in s
    ensures i < |s| && s[i] == c && c !in s[i + 1..]
  {
    var n := |s| - 1;
    if s[n] == c then n
    else
      assert s == s[..n] + [s[n]];
      var i := LastIndex(s[..n], c);
      assert s[i + 1..] == s[..n][i + 1..] + [s[n]];
      i
  }

  // --- splitting and joining ----------------------------------------------------

  /** s.split(c) */
  function SplitOn(s: string, c: char): (parts: seq<string>)
    ensures |parts| >= 1
    ensures forall p :: p in parts ==> c !in p
    decreases |s|
  {
    if c !in s then [s]
    else
      var i := FirstIndex(s, c);
      [s[..i]] + SplitOn(s[i + 1..], c)
  }

  function Join(parts: seq<string>, c: char): string
    requires |parts| >= 1
  {
    if |parts| == 1 then parts[0] else parts[0] + [c] + Join(parts[1..], c)
  }

  lemma {:induction false} SplitHead(a: string, b: string, c: char)
    requires c !in a
    ensures SplitOn(a + [c] + b, c) == [a] + SplitOn(b, c)
  {
    var s := a + [c] + b;
    assert s[|a|] == c;
    var i := FirstIndex(s, c);
    assert forall k :: 0 <= k < |a| ==> s[k] == a[k];
    assert forall k :: 0 <= k < i ==> s[k] in s[..i];
    assert s[..i] == a && s[i + 1..] == b;
  }

  /** Joining pieces that hold no separator and splitting again gives the pieces back. */
  lemma {:induction false} SplitJoin(parts: seq<string>, c: char)
    requires |parts| >= 1
    requires forall p :: p in parts ==> c !in p
    ensures SplitOn(Join(parts, c), c) == parts
  {
    if |parts| > 1 {
      assert parts == [parts[0]] + parts[1..];
      SplitJoin(parts[1..], c);
      SplitHead(parts[0], Join(parts[1..], c), c);
    }
  }

  lemma {:induction false} JoinSplit(s: string, c: char)
    ensures Join(SplitOn(s, c), c) == s
    decreases |s|
  {
    if c in s {
      var i := FirstIndex(s, c);
      JoinSplit(s[i + 1..], c);
      JoinCons(s[..i], SplitOn(s[i + 1..], c), c);
      assert s == s[..i] + [c] + s[i + 1..];
    }
  }

  lemma JoinCons(a: string, rest: seq<string>, c: char)
    requires |rest| >= 1
    ensures Join([a] + rest, c) == a + [c] + Join(rest, c)
  {
    assert ([a] + rest)[1..] == rest;
  }

  /** How often `c` occurs in `s`. */
  function Count(s: string, c: char): nat {
    if s == "" then 0 else (if s[0] == c then 1 else 0) + Count(s[1..], c)
  }

  lemma {:induction false} CountConcat(a: string, b: string, c: char)
    ensures Count(a + b, c) == Count(a, c) + Count(b, c)
  {
    if a == "" {
      assert a + b == b;
    } else {
      assert (a + b)[1..] == a[1..] + b;
      CountConcat(a[1..], b, c);
    }
  }

  lemma {:induction false} CountZero(s: string, c: char)
    ensures Count(s, c) == 0 <==> c !in s
  {
    if s != "" { CountZero(s[1..], c); }
  }

  lemma {:induction false} SplitLength(s: string, c: char)
    ensures |SplitOn(s, c)| == Count(s, c) + 1
    decreases |s|
  {
    if c !in s {
      CountZero(s, c);
    } else {
      var i := FirstIndex(s, c);
      SplitLength(s[i + 1..], c);
      CountZero(s[..i], c);
      assert s == s[..i] + ([c] + s[i + 1..]);
      CountConcat(s[..i], [c] + s[i + 1..], c);
    }
  }

  /** s.lstrip(c) */
  function LStrip(s: string, c: char): string {
    if s != "" && s[0] == c then LStrip(s[1..], c) else s
  }

  /** s.rsplit(c, n) */
  function RSplit(s: string, c: char, n: nat): (parts: seq<string>)
    ensures 1 <= |parts| <= n + 1
    ensures forall k :: 1 <= k < |parts| ==> c !in parts[k]
  {
    if n == 0 || c !in s then [s]
    else
      var i := LastIndex(s, c);
      RSplit(s[..i], c, n - 1) + [s[i + 1..]]
  }

  lemma RSplitLast(a: string, b: string, c: char, n: nat)
    requires c !in b && n > 0
    ensures RSplit(a + [c] + b, c, n) == RSplit(a, c, n - 1) + [b]
  {
    var s := a + [c] + b;
    assert s[|a|] == c;
    var i := LastIndex(s, c);
    assert forall k :: |a| < k < |s| ==> s[k] == b[k - |a| - 1];
    assert forall k :: i < k < |s| ==> s[k] in s[i + 1..];
    assert s[..i] == a && s[i + 1..] == b;
  }

  /** Two strings cut at their first `c` agree exactly when both pieces agree. */
  lemma CutFirst(a: string, b: string, a': string, b': string, c: char)
    requires c !in a && c !in a'
    requires a + [c] + b == a' + [c] + b'
    ensures a == a' && b == b'
  {
    SplitPoint(a, b, a', b', c);
    SplitPoint(a', b', a, b, c);
    var s := a + [c] + b;
    assert a == s[..|a|] && b == s[|a| + 1..];
    assert a' == s[..|a'|] && b' == s[|a'| + 1..];
  }

  lemma SplitPoint(a: string, b: string, a': string, b': string, c: char)
    requires c !in a'
    requires a + [c] + b == a' + [c] + b'
    ensures |a| >= |a'|
  {
    assert (a + [c] + b)[|a|] == c;
    assert forall k :: 0 <= k < |a'| ==> (a' + [c] + b')[k] == a'[k];
  }

  /** Two strings cut at their last `c` agree exactly when both pieces agree. */
  lemma CutLast(a: string, b: string, a': string, b': string, c: char)
    requires c !in b && c !in b'
    requires a + [c] + b == a' + [c] + b'
    ensures a == a' && b == b'
  {
    CutPoint(a, b, a', b', c);
    CutPoint(a', b', a, b, c);
    var s := a + [c] + b;
    assert a == s[..|a|] && b == s[|a| + 1..];
    assert a' == s[..|a'|] && b' == s[|a'| + 1..];
  }

  lemma CutPoint(a: string, b: string, a': string, b': string, c: char)
    requires c !in b'
    requires a + [c] + b == a' + [c] + b'
    ensures |a| <= |a'|
  {
    assert (a + [c] + b)[|a|] == c;
    assert forall k :: |a'| < k < |a' + [c] + b'| ==> (a' + [c] + b')[k] == b'[k - |a'| - 1];
  }
}
