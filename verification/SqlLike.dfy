/**
 The LIKE predicate of section 8.5 of ISO/IEC 9075-2 with escape character `\`, and its
 case-insensitive form. A pattern that ends in a lone escape is a data exception.
 */
module SqlLike {
  import opened Wrappers
  import opened Text
  import opened Seqs

  datatype Token = AnyRun | AnyOne | Lit(c: char)

  /** The pattern as tokens; None for a pattern that ends in the escape character. */
  function Parse(p: string): Option<seq<Token>> {
    if p == "" then Some([])
    else if p[0] == '\\' then
      if |p| == 1 then None
      else
        match Parse(p[2..])
        case None => None
        case Some(ts) => Some([Lit(p[1])] + ts)
    else
      match Parse(p[1..])
      case None => None
      case Some(ts) =>
        var t := if p[0] == '%' then AnyRun else if p[0] == '_' then AnyOne else Lit(p[0]);
        Some([t] + ts)
  }

  /** What a piece of a pattern stands for. */
  predicate IsPiece(t: Token, piece: string) {
    match t
    case AnyRun => piece == "%"
    case AnyOne => piece == "_"
    case Lit(c) => piece == "\\" + [c] || (piece == [c] && c !in "%_\\")
  }

  ghost predicate Spells(p: string, ts: seq<Token>, pieces: seq<string>) {
    && |pieces| == |ts| && Concat(pieces) == p
    && forall i :: 0 <= i < |ts| ==> IsPiece(ts[i], pieces[i])
  }

  /** A pattern has these tokens exactly when it is made of their pieces. */
  lemma ParsedExactly(p: string, ts: seq<Token>)
    ensures Parse(p) == Some(ts) <==> exists pieces :: Spells(p, ts, pieces)
  {
    if Parse(p) == Some(ts) { var pieces := PiecesOf(p, ts); }
    if pieces :| Spells(p, ts, pieces) { PiecesParse(p, ts, pieces); }
  }

  lemma {:induction false} PiecesOf(p: string, ts: seq<Token>) returns (pieces: seq<string>)
    requires Parse(p) == Some(ts)
    ensures Spells(p, ts, pieces)
    decreases |p|
  {
    pieces := [];
    if p != "" {
      var k := if p[0] == '\\' then 2 else 1;
      var rest := PiecesOf(p[k..], ts[1..]);
      pieces := [p[..k]] + rest;
      ConcatHead(p[..k], rest);
    }
  }

  lemma {:induction false} PiecesParse(p: string, ts: seq<Token>, pieces: seq<string>)
    requires Spells(p, ts, pieces)
    ensures Parse(p) == Some(ts)
  {
    if ts != [] {
      ConcatCons(pieces);
      var rest := Concat(pieces[1..]);
      assert p == pieces[0] + rest && p[|pieces[0]|..] == rest;
      PiecesParse(rest, ts[1..], pieces[1..]);
      assert IsPiece(ts[0], pieces[0]);
      assert ts == [ts[0]] + ts[1..];
    }
  }

  /** A backtracking matcher. */
  predicate Matches(ts: seq<Token>, s: string)
    decreases |ts| + |s|
  {
    if ts == [] then s == ""
    else
      match ts[0]
      case AnyRun => Matches(ts[1..], s) || (s != "" && Matches(ts, s[1..]))
      case AnyOne => s != "" && Matches(ts[1..], s[1..])
      case Lit(c) => s != "" && s[0] == c && Matches(ts[1..], s[1..])
  }

  /** ILIKE: both sides are folded before matching. */
  predicate ILike(pattern: string, s: string) {
    var ts := Parse(Lower(pattern));
    ts.Some? && Matches(ts.value, Lower(s))
  }

  // --- the standard's own definition: a partition of the string into substrings --------

  predicate Fits(t: Token, part: string) {
    match t
    case AnyRun => true
    case AnyOne => |part| == 1
    case Lit(c) => part == [c]
  }

  ghost predicate Partitions(ts: seq<Token>, parts: seq<string>, s: string) {
    && |parts| == |ts|
    && Concat(parts) == s
    && forall i :: 0 <= i < |ts| ==> Fits(ts[i], parts[i])
  }

  /** The matcher accepts exactly the strings that have a partition fitting the pattern. */
  lemma {:induction false} MatchesIsPartition(ts: seq<Token>, s: string)
    ensures Matches(ts, s) <==> exists parts :: Partitions(ts, parts, s)
  {
    if Matches(ts, s) {
      var parts := PartitionOf(ts, s);
    }
    if parts :| Partitions(ts, parts, s) {
      PartitionMatches(ts, parts, s);
    }
  }

  lemma ConcatCons(parts: seq<string>)
    requires parts != []
    ensures Concat(parts) == parts[0] + Concat(parts[1..])
  {
    ConcatHead(parts[0], parts[1..]);
    assert parts == [parts[0]] + parts[1..];
  }

  /** A run that takes one more character. */
  lemma PartitionLonger(ts: seq<Token>, rest: seq<string>, s: string)
    requires s != "" && ts != [] && ts[0].AnyRun? && Partitions(ts, rest, s[1..])
    ensures Partitions(ts, [[s[0]] + rest[0]] + rest[1..], s)
  {
    ConcatHead([s[0]] + rest[0], rest[1..]);
    ConcatCons(rest);
    Assoc([s[0]], rest[0], Concat(rest[1..]));
  }

  lemma PartitionNext(ts: seq<Token>, rest: seq<string>, s: string, k: nat)
    requires ts != [] && k <= |s| && Fits(ts[0], s[..k]) && Partitions(ts[1..], rest, s[k..])
    ensures Partitions(ts, [s[..k]] + rest, s)
  {
    ConcatHead(s[..k], rest);
  }

  lemma {:induction false} PartitionOf(ts: seq<Token>, s: string) returns (parts: seq<string>)
    requires Matches(ts, s)
    ensures Partitions(ts, parts, s)
    decreases |ts| + |s|
  {
    if ts == [] {
      parts := [];
    } else if ts[0].AnyRun? && !Matches(ts[1..], s) {
      var rest := PartitionOf(ts, s[1..]);
      PartitionLonger(ts, rest, s);
      parts := [[s[0]] + rest[0]] + rest[1..];
    } else {
      var k := if ts[0].AnyRun? then 0 else 1;
      var rest := PartitionOf(ts[1..], s[k..]);
      PartitionNext(ts, rest, s, k);
      parts := [s[..k]] + rest;
    }
  }

  lemma {:induction false} PartitionMatches(ts: seq<Token>, parts: seq<string>, s: string)
    requires Partitions(ts, parts, s)
    ensures Matches(ts, s)
    decreases |ts| + |s|
  {
    if ts != [] {
      var rest := Concat(parts[1..]);
      ConcatCons(parts);
      if ts[0].AnyRun? && parts[0] != "" {
        var shorter := [parts[0][1..]] + parts[1..];
        ConcatHead(parts[0][1..], parts[1..]);
        assert Concat(shorter) == s[1..];
        PartitionMatches(ts, shorter, s[1..]);
      } else {
        assert Partitions(ts[1..], parts[1..], rest);
        PartitionMatches(ts[1..], parts[1..], rest);
        assert s == parts[0] + rest;
        assert s[|parts[0]|..] == rest;
      }
    }
  }

  // --- literals and the two pattern shapes the block list uses ---------------------------

  function Lits(w: string): seq<Token> {
    seq(|w|, i requires 0 <= i < |w| => Lit(w[i]))
  }

  lemma {:induction false} LitsMatchOnly(w: string, s: string)
    ensures Matches(Lits(w), s) <==> s == w
  {
    if w != "" {
      assert Lits(w)[1..] == Lits(w[1..]);
      if s != "" {
        LitsMatchOnly(w[1..], s[1..]);
      }
    }
  }

  lemma {:induction false} LitsThenRun(w: string, s: string)
    ensures Matches(Lits(w) + [AnyRun], s) <==> w <= s
  {
    var ts := Lits(w) + [AnyRun];
    if w == "" {
      RunMatchesAll(s);
      assert ts == [AnyRun];
    } else {
      assert ts[1..] == Lits(w[1..]) + [AnyRun];
      if s != "" {
        LitsThenRun(w[1..], s[1..]);
      }
    }
  }

  lemma {:induction false} RunMatchesAll(s: string)
    ensures Matches([AnyRun], s)
  {
    if s != "" {
      RunMatchesAll(s[1..]);
    } else {
      assert Matches([AnyRun][1..], s);
    }
  }

  lemma {:induction false} RunThenLits(w: string, s: string)
    ensures Matches([AnyRun] + Lits(w), s) <==> EndsWith(s, w)
  {
    var ts := [AnyRun] + Lits(w);
    assert ts[1..] == Lits(w);
    LitsMatchOnly(w, s);
    if s != "" {
      RunThenLits(w, s[1..]);
      if |w| < |s| {
        assert s[|s| - |w|..] == s[1..][|s| - 1 - |w|..];
      }
    }
  }

  lemma {:induction false} RunLitsRun(w: string, s: string)
    ensures Matches([AnyRun] + Lits(w) + [AnyRun], s) <==> Contains(s, w)
  {
    var ts := [AnyRun] + Lits(w) + [AnyRun];
    assert ts[1..] == Lits(w) + [AnyRun];
    LitsThenRun(w, s);
    if s != "" {
      RunLitsRun(w, s[1..]);
    }
  }
}
