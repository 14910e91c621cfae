/**
 The SQL filter against the Python predicate, on the two URL shapes the system stores:
 exactly when they agree, and the inputs on which they do not.
 */
module BlocklistFilter {
  import opened Wrappers
  import opened Text
  import opened SqlLike
  import opened Blocklist

  // --- stored URLs ----------------------------------------------------------------------

  /** The segments in front of the owner in the two stored shapes,
      https://api.github.com/repos/{owner}/{name} and https://github.com/{owner}/{name}. */
  const API_SEGMENTS: seq<string> := ["https:", "", "api.github.com", "repos"]
  const CLONE_SEGMENTS: seq<string> := ["https:", "", "github.com"]

  /** What the theorems need of such a prefix; both stored shapes have it. */
  ghost predicate UrlShape(fixed: seq<string>) {
    && |fixed| >= 2 && fixed[0] == "https:" && fixed[1] == "" && "" !in fixed[2..]
    && SlashFree(fixed) && LowerCase(fixed)
  }

  lemma StoredShapes()
    ensures UrlShape(API_SEGMENTS) && UrlShape(CLONE_SEGMENTS)
  {
    assert Lower("https:") == "https:" && Lower("repos") == "repos";
    assert Lower("api.github.com") == "api.github.com" && Lower("github.com") == "github.com";
    assert API_SEGMENTS[2..] == ["api.github.com", "repos"] && CLONE_SEGMENTS[2..] == ["github.com"];
  }

  function Segments(fixed: seq<string>, owner: string, name: string): seq<string> {
    fixed + [owner, name]
  }

  function StoredUrl(fixed: seq<string>, owner: string, name: string): string {
    Join(Segments(fixed, owner, name), '/')
  }

  predicate GitHubName(s: string) { s != "" && '/' !in s }

  predicate SlashFree(segs: seq<string>) { forall s :: s in segs ==> '/' !in s }

  predicate LowerCase(segs: seq<string>) { forall s :: s in segs ==> Lower(s) == s }

  lemma {:induction false} LowerJoin(segs: seq<string>)
    requires |segs| >= 1
    ensures Lower(Join(segs, '/')) == Join(seq(|segs|, i requires 0 <= i < |segs| => Lower(segs[i])), '/')
  {
    var low := seq(|segs|, i requires 0 <= i < |segs| => Lower(segs[i]));
    if |segs| > 1 {
      LowerJoin(segs[1..]);
      LowerConcat(segs[0], ['/']);
      LowerConcat(segs[0] + ['/'], Join(segs[1..], '/'));
      assert Lower(['/']) == ['/'];
      assert low[1..] == seq(|segs[1..]|, i requires 0 <= i < |segs[1..]| => Lower(segs[1..][i]));
    }
  }

  // --- occurrences of a slash are boundaries between segments ----------------------------

  lemma {:induction false} ContainsPast(a: string, rest: string, w: string)
    requires '/' !in a
    ensures Contains(a + ['/'] + rest, ['/'] + w) <==> w <= rest || Contains(rest, ['/'] + w)
  {
    var s := a + ['/'] + rest;
    if a == "" {
      assert s == ['/'] + rest;
      assert s[1..] == rest;
      assert ['/'] + w <= s <==> w <= rest by {
        if ['/'] + w <= s { assert w == (['/'] + w)[1..] == s[1..][..|w|]; }
      }
    } else {
      assert s[1..] == a[1..] + ['/'] + rest;
      assert s[0] == a[0] && (['/'] + w)[0] == '/';
      ContainsPast(a[1..], rest, w);
    }
  }

  lemma {:induction false} NoSlashNoHit(s: string, w: string)
    requires '/' !in s
    ensures !Contains(s, ['/'] + w)
  {
    assert (['/'] + w)[0] == '/';
    assert s != "" ==> s[0] in s;
    if s != "" { NoSlashNoHit(s[1..], w); }
  }

  lemma {:induction false} HitsAreBoundaries(segs: seq<string>, w: string)
    requires |segs| >= 1 && SlashFree(segs)
    ensures Contains(Join(segs, '/'), ['/'] + w) <==>
            exists i :: 1 <= i < |segs| && w <= Join(segs[i..], '/')
  {
    if |segs| == 1 {
      NoSlashNoHit(segs[0], w);
    } else {
      var rest := segs[1..];
      ContainsPast(segs[0], Join(rest, '/'), w);
      HitsAreBoundaries(rest, w);
      assert forall i :: 1 <= i < |rest| ==> rest[i..] == segs[i + 1..];
      if i :| 1 <= i < |rest| && w <= Join(rest[i..], '/') {
        assert w <= Join(segs[i + 1..], '/');
      }
      if i :| 1 <= i < |segs| && w <= Join(segs[i..], '/') {
        if i > 1 { assert rest[i - 1..] == segs[i..]; }
      }
    }
  }

  lemma {:induction false} EndHitsAreBoundaries(segs: seq<string>, w: string)
    requires |segs| >= 1 && SlashFree(segs)
    ensures EndsWith(Join(segs, '/'), ['/'] + w) <==>
            exists i :: 1 <= i < |segs| && w == Join(segs[i..], '/')
  {
    if |segs| == 1 {
      NoSlashAtEnd(segs[0], w);
    } else {
      var rest := segs[1..];
      EndHitsAreBoundaries(rest, w);
      EndsPast(segs[0], Join(rest, '/'), w);
      assert forall i :: 0 <= i < |rest| ==> rest[i..] == segs[i + 1..];
      if i :| 1 <= i < |rest| && w == Join(rest[i..], '/') {
        assert w == Join(segs[i + 1..], '/');
      }
      if i :| 1 <= i < |segs| && w == Join(segs[i..], '/') {
        assert rest[i - 1..] == segs[i..];
      }
    }
  }

  lemma NoSlashAtEnd(s: string, w: string)
    requires '/' !in s
    ensures !EndsWith(s, ['/'] + w)
  {
    var v := ['/'] + w;
    assert v[0] == '/';
    assert |v| <= |s| ==> s[|s| - |v|..][0] == s[|s| - |v|] && s[|s| - |v|] in s;
  }

  lemma EndsPast(a: string, rest: string, w: string)
    requires '/' !in a
    ensures EndsWith(a + ['/'] + rest, ['/'] + w) <==> w == rest || EndsWith(rest, ['/'] + w)
  {
    var s, v := a + ['/'] + rest, ['/'] + w;
    if |v| <= |rest| {
      assert s[|s| - |v|..] == rest[|rest| - |v|..];
    } else if |v| == |rest| + 1 {
      assert s[|s| - |v|..] == ['/'] + rest;
      assert v[1..] == w && (['/'] + rest)[1..] == rest;
    } else if |v| <= |s| {
      assert v[0] == '/';
      assert s[|s| - |v|..][0] == s[|s| - |v|] == a[|s| - |v|] && a[|s| - |v|] in a;
    }
  }

  lemma {:induction false} SegmentPrefix(xs: seq<string>, ss: seq<string>)
    requires |xs| >= 1 && |ss| >= 1 && SlashFree(xs) && SlashFree(ss)
    ensures Join(xs, '/') + ['/'] <= Join(ss, '/') <==> |xs| < |ss| && ss[..|xs|] == xs
  {
    var p, s := Join(xs, '/') + ['/'], Join(ss, '/');
    if |ss| == 1 {
      assert p[|p| - 1] == '/';
      assert |p| <= |s| ==> s[|p| - 1] in s;
    } else if |xs| == 1 {
      var t := Join(ss[1..], '/');
      if p <= s {
        var b := s[|p|..];
        assert s == xs[0] + ['/'] + b;
        CutFirst(xs[0], b, ss[0], t, '/');
        assert ss[..1] == xs;
      }
      if ss[..1] == xs {
        assert ss[0] == xs[0];
        assert s == p + t;
      }
    } else {
      var q, t := Join(xs[1..], '/') + ['/'], Join(ss[1..], '/');
      SegmentPrefix(xs[1..], ss[1..]);
      assert p == xs[0] + ['/'] + q;
      if p <= s {
        var b := s[|p|..];
        assert s == xs[0] + ['/'] + (q + b);
        CutFirst(xs[0], q + b, ss[0], t, '/');
        assert q <= t;
        assert ss[..|xs|] == [ss[0]] + ss[1..][..|xs| - 1];
        assert xs == [xs[0]] + xs[1..];
      }
      if |xs| < |ss| && ss[..|xs|] == xs {
        assert ss[0] == xs[0];
        assert ss[1..][..|xs| - 1] == ss[..|xs|][1..] == xs[1..];
        assert s == xs[0] + ['/'] + t;
        assert s == p + t[|q|..];
      }
    }
  }

  // --- what each pattern matches ---------------------------------------------------------

  lemma OwnerPatternMeaning(owner: string, url: string)
    requires ValidName(owner)
    ensures ILike(OwnerPattern(owner), url) <==> Contains(Lower(url), ['/'] + (owner + ['/']))
  {
    PatternTokens(owner);
    var w := ['/'] + (owner + ['/']);
    assert w == ['/'] + owner + ['/'];
    RunLitsRun(w, Lower(url));
  }

  lemma RepoPatternMeaning(slug: string, url: string)
    requires Lower(slug) == slug
    ensures ILike(RepoPattern(slug), url) <==> EndsWith(Lower(url), ['/'] + slug)
    ensures ILike(RepoPathPattern(slug), url) <==> Contains(Lower(url), ['/'] + (slug + ['/']))
  {
    PatternTokens(slug);
    var w := ['/'] + (slug + ['/']);
    assert w == ['/'] + slug + ['/'];
    RunLitsRun(w, Lower(url));
    RunThenLits(['/'] + slug, Lower(url));
  }

  lemma PatternTokens(x: string)
    requires Lower(x) == x
    ensures Parse(Lower("%/" + Escaped(x) + "/%")) == Some([AnyRun] + Lits(['/'] + x + ['/']) + [AnyRun])
    ensures Parse(Lower("%/" + Escaped(x))) == Some([AnyRun] + Lits(['/'] + x))
  {
    EscapedLower(x);
    LowerConcat("%/", Escaped(x));
    LowerConcat("%/" + Escaped(x), "/%");
    assert Lower("%/") == "%/" && Lower("/%") == "/%";
    OpenTokens(x);
    ShortTokens(x);
  }

  lemma OpenTokens(x: string)
    ensures Parse("%/" + Escaped(x) + "/%") == Some([AnyRun] + Lits(['/'] + x + ['/']) + [AnyRun])
  {
    assert "%/" + Escaped(x) + "/%" == "%/" + (Escaped(x) + "/%");
    PercentSlash(Escaped(x) + "/%");
    ClosingTokens();
    EscapedIsLiteral(x, "/%");
    assert [AnyRun, Lit('/')] + (Lits(x) + [Lit('/'), AnyRun]) == [AnyRun] + Lits(['/'] + x + ['/']) + [AnyRun];
  }

  lemma ShortTokens(x: string)
    ensures Parse("%/" + Escaped(x)) == Some([AnyRun] + Lits(['/'] + x))
  {
    assert Escaped(x) + "" == Escaped(x);
    PercentSlash(Escaped(x));
    ClosingTokens();
    EscapedIsLiteral(x, "");
    assert [AnyRun, Lit('/')] + (Lits(x) + []) == [AnyRun] + Lits(['/'] + x);
  }

  lemma ClosingTokens()
    ensures Parse("") == Some([])
    ensures Parse("/%") == Some([Lit('/'), AnyRun])
  {
    assert "/%"[1..] == "%" && "%"[1..] == "";
    assert [AnyRun] + [] == [AnyRun];
    assert Parse("%") == Some([AnyRun]);
    assert [Lit('/')] + [AnyRun] == [Lit('/'), AnyRun];
  }

  lemma PercentSlash(rest: string)
    ensures Parse("%/" + rest) ==
            match Parse(rest) { case None => None case Some(ts) => Some([AnyRun, Lit('/')] + ts) }
  {
    var p := "%/" + rest;
    assert p[1..] == ['/'] + rest;
    assert p[1..][1..] == rest;
    if Parse(rest).Some? {
      assert [AnyRun] + ([Lit('/')] + Parse(rest).value) == [AnyRun, Lit('/')] + Parse(rest).value;
    }
  }

  // --- the two sides on a stored URL ------------------------------------------------------

  /** The owner or the repository is on the list, reading the name as stored. */
  predicate Listed(bl: Blocklist, owner: string, name: string) {
    Lower(owner) in bl.owners || Slug(Lower(owner), Lower(name)) in bl.repos
  }

  /** Segments 1.. up to the owner: what `%/x/%` and `%/x/y/%` can reach. */
  ghost function Reachable(fixed: seq<string>, owner: string): seq<string>
    requires UrlShape(fixed)
  {
    fixed[1..] + [Lower(owner)]
  }

  /** The entry `slug` names two neighbouring segments that end before the name. */
  ghost predicate PathHit(slug: string, fixed: seq<string>, owner: string)
    requires UrlShape(fixed)
  {
    var inner := Reachable(fixed, owner);
    exists i :: PairAt(inner, i, slug)
  }

  predicate PairAt(segs: seq<string>, i: int, slug: string) {
    0 <= i && i + 1 < |segs| && slug == Slug(segs[i], segs[i + 1])
  }

  /** Some entry of the list names a segment every URL of this shape contains. */
  ghost predicate NamesFixedSegment(bl: Blocklist, fixed: seq<string>, owner: string)
    requires UrlShape(fixed)
  {
    || (exists o :: o in bl.owners && o in fixed[1..])
    || (exists r :: r in bl.repos && PathHit(r, fixed, owner))
  }

  lemma LowerSegments(fixed: seq<string>, owner: string, name: string) returns (segs: seq<string>)
    requires UrlShape(fixed) && GitHubName(owner) && GitHubName(name)
    ensures segs == Segments(fixed, Lower(owner), Lower(name)) && SlashFree(segs)
    ensures Lower(StoredUrl(fixed, owner, name)) == Join(segs, '/')
  {
    LowerNoSlash(owner);
    LowerNoSlash(name);
    var raw := Segments(fixed, owner, name);
    LowerJoin(raw);
    segs := Segments(fixed, Lower(owner), Lower(name));
    assert seq(|raw|, i requires 0 <= i < |raw| => Lower(raw[i])) == segs;
  }

  lemma OwnerPatternOnUrl(o: string, fixed: seq<string>, owner: string, name: string)
    requires UrlShape(fixed) && ValidName(o) && GitHubName(owner) && GitHubName(name)
    ensures ILike(OwnerPattern(o), StoredUrl(fixed, owner, name)) <==>
            o in fixed[1..] || o == Lower(owner)
  {
    var segs := LowerSegments(fixed, owner, name);
    OwnerPatternMeaning(o, StoredUrl(fixed, owner, name));
    NameInside(o, segs);
    assert forall i :: 1 <= i < |fixed| ==> segs[i] == fixed[1..][i - 1];
    assert segs[|fixed|] == Lower(owner);
    if o in fixed[1..] {
      var k :| 0 <= k < |fixed| - 1 && fixed[1..][k] == o;
      assert segs[k + 1] == o;
    }
  }

  lemma NameInside(o: string, segs: seq<string>)
    requires '/' !in o && SlashFree(segs) && |segs| >= 1
    ensures Contains(Join(segs, '/'), ['/'] + (o + ['/'])) <==> exists i :: 1 <= i < |segs| - 1 && segs[i] == o
  {
    HitsAreBoundaries(segs, o + ['/']);
    assert Join([o], '/') == o;
    forall i | 1 <= i < |segs|
      ensures o + ['/'] <= Join(segs[i..], '/') <==> i < |segs| - 1 && segs[i] == o
    {
      SegmentPrefix([o], segs[i..]);
      assert |segs[i..]| > 1 ==> segs[i..][..1] == [segs[i]];
    }
  }

  lemma RepoPatternsOnUrl(slug: string, fixed: seq<string>, owner: string, name: string)
    requires UrlShape(fixed) && ValidSlug(slug) && GitHubName(owner) && GitHubName(name)
    ensures ILike(RepoPattern(slug), StoredUrl(fixed, owner, name)) <==> slug == Slug(Lower(owner), Lower(name))
    ensures ILike(RepoPathPattern(slug), StoredUrl(fixed, owner, name)) <==> PathHit(slug, fixed, owner)
  {
    var segs := LowerSegments(fixed, owner, name);
    var xs := SlugParts(slug);
    RepoPatternMeaning(slug, StoredUrl(fixed, owner, name));
    SlugAtEnd(slug, segs);
    SlugInside(slug, segs);
    var inner := Reachable(fixed, owner);
    assert inner == segs[1..|segs| - 1];
    assert segs[|segs| - 2] == Lower(owner) && segs[|segs| - 1] == Lower(name);
    if i :| 1 <= i < |segs| - 2 && PairAt(segs, i, slug) {
      assert PairAt(inner, i - 1, slug);
    }
    if i :| PairAt(inner, i, slug) {
      assert PairAt(segs, i + 1, slug);
    }
  }

  lemma SlugParts(slug: string) returns (xs: seq<string>)
    requires ValidSlug(slug)
    ensures xs == SplitOn(slug, '/') && |xs| == 2 && SlashFree(xs)
    ensures ValidName(xs[0]) && ValidName(xs[1]) && slug == Slug(xs[0], xs[1]) == Join(xs, '/')
    ensures Lower(slug) == slug
  {
    xs := SplitOn(slug, '/');
    JoinSplit(slug, '/');
    assert xs[1..] == [xs[1]];
    LowerConcat(xs[0], ['/']);
    LowerConcat(xs[0] + ['/'], xs[1]);
    assert Lower(['/']) == ['/'];
  }

  lemma SlugAtEnd(slug: string, segs: seq<string>)
    requires ValidSlug(slug) && SlashFree(segs) && |segs| >= 3
    ensures EndsWith(Join(segs, '/'), ['/'] + slug) <==> slug == Slug(segs[|segs| - 2], segs[|segs| - 1])
  {
    var xs := SlugParts(slug);
    var m := |segs| - 2;
    EndHitsAreBoundaries(segs, slug);
    assert segs[m..] == [segs[m], segs[m + 1]] && segs[m..][1..] == [segs[m + 1]];
    assert Join(segs[m..], '/') == Slug(segs[m], segs[m + 1]);
    forall i | 1 <= i < |segs| && slug == Join(segs[i..], '/') ensures i == m {
      SplitJoin(segs[i..], '/');
    }
  }

  lemma SlugInside(slug: string, segs: seq<string>)
    requires ValidSlug(slug) && SlashFree(segs) && |segs| >= 3
    ensures Contains(Join(segs, '/'), ['/'] + (slug + ['/'])) <==>
            exists i :: 1 <= i < |segs| - 2 && PairAt(segs, i, slug)
  {
    var xs := SlugParts(slug);
    HitsAreBoundaries(segs, slug + ['/']);
    forall i | 1 <= i < |segs|
      ensures slug + ['/'] <= Join(segs[i..], '/') <==> i < |segs| - 2 && PairAt(segs, i, slug)
    {
      SlugStarts(xs, segs, i);
    }
  }

  lemma SlugStarts(xs: seq<string>, segs: seq<string>, i: nat)
    requires |xs| == 2 && ValidName(xs[0]) && ValidName(xs[1]) && SlashFree(segs) && i < |segs|
    ensures Join(xs, '/') == Slug(xs[0], xs[1])
    ensures Join(xs, '/') + ['/'] <= Join(segs[i..], '/') <==>
            i < |segs| - 2 && PairAt(segs, i, Slug(xs[0], xs[1]))
  {
    assert xs[1..] == [xs[1]];
    SegmentPrefix(xs, segs[i..]);
    if i < |segs| - 2 {
      assert segs[i..][..2] == [segs[i], segs[i + 1]];
      SlugsDiffer(xs[0], xs[1]);
      assert segs[i] in segs;
    }
  }

  lemma SlugsDiffer(a: string, b: string)
    requires ValidName(a) && ValidName(b)
    ensures forall a', b' :: '/' !in a' && Slug(a, b) == Slug(a', b') ==> a == a' && b == b'
  {
    forall a', b' | '/' !in a' && Slug(a, b) == Slug(a', b') ensures a == a' && b == b' {
      CutFirst(a, b, a', b', '/');
    }
  }

  /** The SQL filter excludes exactly the listed repositories, plus every URL of a shape one
      of whose fixed segments is on the list. */
  lemma LikeBlockedExactly(bl: Blocklist, fixed: seq<string>, owner: string, name: string)
    requires UrlShape(fixed) && WellFormed(bl) && GitHubName(owner) && GitHubName(name)
    ensures LikeBlocked(bl, StoredUrl(fixed, owner, name)) <==>
            Listed(bl, owner, name) || NamesFixedSegment(bl, fixed, owner)
  {
    var url := StoredUrl(fixed, owner, name);
    forall o | o in bl.owners
      ensures ILike(OwnerPattern(o), url) <==> o in fixed[1..] || o == Lower(owner)
    {
      OwnerPatternOnUrl(o, fixed, owner, name);
    }
    forall r | r in bl.repos
      ensures ILike(RepoPattern(r), url) <==> r == Slug(Lower(owner), Lower(name))
      ensures ILike(RepoPathPattern(r), url) <==> PathHit(r, fixed, owner)
    {
      RepoPatternsOnUrl(r, fixed, owner, name);
    }
    if Listed(bl, owner, name) || NamesFixedSegment(bl, fixed, owner) {
      LikeHit(bl, fixed, owner, name, url);
    }
  }

  lemma LikeHit(bl: Blocklist, fixed: seq<string>, owner: string, name: string, url: string)
    requires UrlShape(fixed)
    requires Listed(bl, owner, name) || NamesFixedSegment(bl, fixed, owner)
    requires forall o :: o in bl.owners ==> (ILike(OwnerPattern(o), url) <==> o in fixed[1..] || o == Lower(owner))
    requires forall r :: r in bl.repos ==> (ILike(RepoPattern(r), url) <==> r == Slug(Lower(owner), Lower(name)))
    requires forall r :: r in bl.repos ==>
      (ILike(RepoPathPattern(r), url) <==> PathHit(r, fixed, owner))
    ensures LikeBlocked(bl, url)
  {
    if o :| o in bl.owners && (o in fixed[1..] || o == Lower(owner)) {
      assert IsPattern(bl, OwnerPattern(o));
    } else if Slug(Lower(owner), Lower(name)) in bl.repos {
      assert IsPattern(bl, RepoPattern(Slug(Lower(owner), Lower(name))));
    } else {
      var r :| r in bl.repos && ILike(RepoPathPattern(r), url);
      assert IsPattern(bl, RepoPathPattern(r));
    }
  }

  /** The Python predicate reads the name without its `.git`. */
  lemma UrlListedExactly(bl: Blocklist, fixed: seq<string>, owner: string, name: string)
    requires UrlShape(fixed) && GitHubName(owner) && GitHubName(name)
    ensures UrlListed(bl, StoredUrl(fixed, owner, name)) <==>
            StripGit(name) != "" && Listed(bl, owner, StripGit(name))
  {
    var head := fixed[2..];
    assert fixed == [fixed[0]] + ([fixed[1]] + head);
    assert Segments(fixed, owner, name) == [fixed[0]] + ([fixed[1]] + (head + [owner, name]));
    LastTwoSegments(head, owner, name);
  }

  lemma LastTwoSegments(head: seq<string>, owner: string, name: string)
    requires SlashFree(head) && "" !in head && GitHubName(owner) && GitHubName(name)
    ensures SplitRepoUrl(Join(["https:"] + ([""] + (head + [owner, name])), '/')) ==
            if StripGit(name) == "" then None else Some((Lower(owner), Lower(StripGit(name))))
  {
    var path := head + [owner, name];
    SchemePath(path);
    SplitJoin(path, '/');
    AllNonEmpty(path);
  }

  lemma SchemePath(path: seq<string>)
    requires |path| >= 1
    ensures AfterScheme(Join(["https:"] + ([""] + path), '/')) == Join(path, '/')
  {
    var scheme := "https:";
    var rest := Join(path, '/');
    JoinCons(scheme, [""] + path, '/');
    JoinCons("", path, '/');
    assert "" + ['/'] + rest == ['/'] + rest;
    assert scheme == "https" + [':'];
    Regroup("https", rest);
    SchemeAt(rest);
  }

  lemma Regroup(a: string, rest: string)
    ensures (a + [':']) + ['/'] + (['/'] + rest) == a + ("://" + rest)
  {
  }

  lemma SchemeAt(rest: string)
    ensures AfterScheme("https" + ("://" + rest)) == rest
  {
    var u := "://" + rest;
    assert SchemeRest(u) == Some(rest) by { assert "://" <= u && u[3..] == rest; }
    SchemeSkip('s', u);
    SchemeSkip('p', ['s'] + u);
    SchemeSkip('t', ['p'] + (['s'] + u));
    SchemeSkip('t', ['t'] + (['p'] + (['s'] + u)));
    SchemeSkip('h', ['t'] + (['t'] + (['p'] + (['s'] + u))));
    assert "https" + u == ['h'] + (['t'] + (['t'] + (['p'] + (['s'] + u))));
  }

  lemma SchemeSkip(c: char, u: string)
    requires c != ':'
    ensures SchemeRest([c] + u) == SchemeRest(u)
  {
    assert ([c] + u)[1..] == u;
    assert ([c] + u)[0] == c;
  }

  lemma {:induction false} AllNonEmpty(parts: seq<string>)
    requires "" !in parts
    ensures NonEmpty(parts) == parts
  {
    if parts != [] { AllNonEmpty(parts[1..]); }
  }

  /** For any list, any repository of either shape, whatever its name ends in and whatever the entries
      name: the filter and the predicate agree exactly when the entries list the name as it is
      stored, or a fixed segment, just if they list it without its `.git`. */
  lemma FilterAgreesAlways(bl: Blocklist, fixed: seq<string>, owner: string, name: string)
    requires UrlShape(fixed) && WellFormed(bl) && GitHubName(owner) && GitHubName(name)
    ensures var url := StoredUrl(fixed, owner, name);
            (LikeBlocked(bl, url) <==> UrlListed(bl, url)) <==>
            (Listed(bl, owner, name) || NamesFixedSegment(bl, fixed, owner)
             <==> StripGit(name) != "" && Listed(bl, owner, StripGit(name)))
  {
    LikeBlockedExactly(bl, fixed, owner, name);
    UrlListedExactly(bl, fixed, owner, name);
  }

  /** For a name without `.git`, the filter and the predicate disagree in one case only: the
      repository is not listed, and an entry names a fixed segment. */
  lemma FilterAgreesExactly(bl: Blocklist, fixed: seq<string>, owner: string, name: string)
    requires UrlShape(fixed) && WellFormed(bl) && GitHubName(owner) && GitHubName(name)
    requires !EndsWith(name, GIT_SUFFIX)
    ensures var url := StoredUrl(fixed, owner, name);
            (LikeBlocked(bl, url) <==> UrlListed(bl, url)) <==>
            (NamesFixedSegment(bl, fixed, owner) ==> Listed(bl, owner, name))
  {
    FilterAgreesAlways(bl, fixed, owner, name);
  }

  /** For any name: with no entry on a fixed segment, they disagree exactly when listing
      depends on the `.git` the predicate drops. */
  lemma FilterAgreesOnGitNames(bl: Blocklist, fixed: seq<string>, owner: string, name: string)
    requires UrlShape(fixed) && WellFormed(bl) && GitHubName(owner) && GitHubName(name)
    requires !NamesFixedSegment(bl, fixed, owner)
    ensures var url := StoredUrl(fixed, owner, name);
            (LikeBlocked(bl, url) <==> UrlListed(bl, url)) <==>
            && (name == GIT_SUFFIX ==> !Listed(bl, owner, name))
            && (name != GIT_SUFFIX && Lower(owner) !in bl.owners ==>
                  (Slug(Lower(owner), Lower(name)) in bl.repos <==> Slug(Lower(owner), Lower(StripGit(name))) in bl.repos))
  {
    FilterAgreesAlways(bl, fixed, owner, name);
  }

  /** A blocked owner whose name is a fixed segment, such as `repos`, hides every URL of that
      shape from dispatch. */
  lemma FixedSegmentOverblocks(segment: string, fixed: seq<string>, owner: string, name: string)
    requires UrlShape(fixed) && segment in fixed[1..] && segment != ""
    requires GitHubName(owner) && GitHubName(name) && Lower(owner) != segment
    ensures var bl, url := Blocklist({segment}, {}), StoredUrl(fixed, owner, name);
            WellFormed(bl) && LikeBlocked(bl, url) && !UrlListed(bl, url)
  {
    var bl := Blocklist({segment}, {});
    SegmentIsName(segment, fixed);
    FixedNotListed(segment, owner, name);
    FixedNotListed(segment, owner, StripGit(name));
    LikeBlockedExactly(bl, fixed, owner, name);
    UrlListedExactly(bl, fixed, owner, name);
  }

  lemma SegmentIsName(segment: string, fixed: seq<string>)
    requires UrlShape(fixed) && segment in fixed[1..] && segment != ""
    ensures ValidName(segment)
  {
    assert segment in fixed;
  }

  lemma FixedNotListed(segment: string, owner: string, name: string)
    requires Lower(owner) != segment
    ensures !Listed(Blocklist({segment}, {}), owner, name)
  {
  }

  /** A blocked repository stored under its `.git` name passes the filter. */
  lemma GitSuffixSlipsThrough(fixed: seq<string>, owner: string, name: string)
    requires UrlShape(fixed) && ValidName(owner) && ValidName(name)
    requires forall r :: r in Reachable(fixed, owner) ==> r != name
    ensures var bl, url := Blocklist({}, {Slug(owner, name)}), StoredUrl(fixed, owner, name + GIT_SUFFIX);
            WellFormed(bl) && UrlListed(bl, url) && !LikeBlocked(bl, url)
  {
    var bl, gitName := Blocklist({}, {Slug(owner, name)}), name + GIT_SUFFIX;
    SlugIsValid(owner, name);
    assert '/' !in GIT_SUFFIX;
    LikeBlockedExactly(bl, fixed, owner, gitName);
    UrlListedExactly(bl, fixed, owner, gitName);
    assert gitName[|gitName| - 4..] == GIT_SUFFIX && gitName[..|name|] == name;
    assert |Lower(gitName)| != |name|;
    SlugsDiffer(owner, name);
    NoPathHit(fixed, owner, name);
  }

  lemma NoPathHit(fixed: seq<string>, owner: string, name: string)
    requires UrlShape(fixed)
    requires ValidName(owner) && ValidName(name)
    requires forall r :: r in Reachable(fixed, owner) ==> r != name
    ensures !PathHit(Slug(owner, name), fixed, owner)
  {
    var inner := Reachable(fixed, owner);
    SlugsDiffer(owner, name);
    forall i | 0 <= i < |inner| - 1 ensures !PairAt(inner, i, Slug(owner, name)) {
      assert inner[i] == fixed[1..][i] == fixed[i + 1];
      assert inner[i + 1] in inner;
    }
  }
}
