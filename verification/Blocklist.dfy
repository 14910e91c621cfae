/**
 The owner/repository block list (backend/assemblage/blocklist.py): parsing, the Python
 predicate, the LIKE patterns that stand for it in SQL, and the file-backed list.
 */
module Blocklist {
  import opened Wrappers
  import opened Text
  import opened SqlLike

  // --- escaping -------------------------------------------------------------------------

  /** value.replace(c, "\\" + c) */
  function Replace(value: string, c: char): string {
    if value == "" then ""
    else (if value[0] == c then ['\\', c] else [value[0]]) + Replace(value[1..], c)
  }

  predicate IsWild(c: char) { c == '\\' || c == '%' || c == '_' }

  /** Every wildcard and every escape character preceded by one escape character. */
  function Escaped(value: string): string {
    if value == "" then ""
    else (if IsWild(value[0]) then ['\\', value[0]] else [value[0]]) + Escaped(value[1..])
  }

  lemma {:induction false} ReplaceConcat(a: string, b: string, c: char)
    ensures Replace(a + b, c) == Replace(a, c) + Replace(b, c)
  {
    if a == "" {
      assert a + b == b;
    } else {
      assert (a + b)[1..] == a[1..] + b;
      ReplaceConcat(a[1..], b, c);
    }
  }

  /** The three passes, escape character first, are one pass. */
  lemma {:induction false} ThreePassesAreOne(value: string)
    ensures Replace(Replace(Replace(value, '\\'), '%'), '_') == Escaped(value)
  {
    if value != "" {
      var c := value[0];
      var head := if c == '\\' then ['\\', c] else [c];
      ThreePassesAreOne(value[1..]);
      var tail := Replace(value[1..], '\\');
      ReplaceConcat(head, tail, '%');
      ReplaceConcat(Replace(head, '%'), Replace(tail, '%'), '_');
      assert Replace(Replace(head, '%'), '_') == if IsWild(c) then ['\\', c] else [c] by {
        assert head[1..] == "" || head[1..][1..] == "";
        assert Replace("", '%') == "" && Replace("", '_') == "";
        assert Replace([c], '%') == (if c == '%' then ['\\', c] else [c]);
        if c == '\\' {
          assert Replace(head, '%') == head by { assert head[1..] == [c]; }
          assert Replace(head, '_') == head by { assert head[1..] == [c]; assert Replace([c], '_') == [c]; }
        } else if c == '%' {
          var w := ['\\', c];
          assert Replace(w, '_') == w by { assert w[1..] == [c]; assert Replace([c], '_') == [c]; }
        } else {
          assert Replace([c], '_') == (if c == '_' then ['\\', c] else [c]);
        }
      }
    }
  }

  const LIKE_WILDCARDS: seq<char> := ['\\', '%', '_']

  function Passes(value: string, n: nat): string
    requires n <= 3
  {
    if n == 0 then value else Replace(Passes(value, n - 1), LIKE_WILDCARDS[n - 1])
  }

  method EscapeLike(value: string) returns (r: string)
    ensures r == Escaped(value)
  {
    r := value;
    var i := 0;
    while i < |LIKE_WILDCARDS|
      invariant 0 <= i <= 3
      invariant r == Passes(value, i)
    {
      r := Replace(r, LIKE_WILDCARDS[i]);
      i := i + 1;
    }
    assert Passes(value, 3) == Replace(Replace(Replace(value, '\\'), '%'), '_') by {
      assert Passes(value, 1) == Replace(Passes(value, 0), '\\');
      assert Passes(value, 2) == Replace(Passes(value, 1), '%');
    }
    ThreePassesAreOne(value);
  }

  /** In a pattern, an escaped string stands for itself, letter by letter. */
  lemma {:induction false} EscapedIsLiteral(x: string, rest: string)
    ensures Parse(Escaped(x) + rest) ==
            match Parse(rest) { case None => None case Some(ts) => Some(Lits(x) + ts) }
  {
    if x == "" {
      assert Escaped(x) + rest == rest;
      if Parse(rest).Some? {
        assert Lits(x) + Parse(rest).value == Parse(rest).value;
      }
    } else {
      EscapedIsLiteral(x[1..], rest);
      var q := Escaped(x[1..]) + rest;
      EscapedStep(x[0], q);
      assert Escaped(x) + rest == (if IsWild(x[0]) then ['\\', x[0]] else [x[0]]) + q;
      if Parse(rest).Some? {
        LitsStep(x, Parse(rest).value);
      }
    }
  }

  lemma LitsStep(x: string, ts: seq<Token>)
    requires x != ""
    ensures Lits(x) + ts == [Lit(x[0])] + (Lits(x[1..]) + ts)
  {
  }

  lemma EscapedStep(c: char, q: string)
    ensures Parse((if IsWild(c) then ['\\', c] else [c]) + q) ==
            match Parse(q) { case None => None case Some(ts) => Some([Lit(c)] + ts) }
  {
    var p := (if IsWild(c) then ['\\', c] else [c]) + q;
    if IsWild(c) {
      assert p[2..] == q;
    } else {
      assert p[1..] == q;
    }
  }

  lemma {:induction false} EscapedLower(x: string)
    ensures Lower(Escaped(x)) == Escaped(Lower(x))
  {
    if x != "" {
      EscapedLower(x[1..]);
      assert Lower(x) == [LowerChar(x[0])] + Lower(x[1..]);
      assert Lower(x)[1..] == Lower(x[1..]);
      var head := if IsWild(x[0]) then ['\\', x[0]] else [x[0]];
      LowerConcat(head, Escaped(x[1..]));
      assert Lower(head) == if IsWild(x[0]) then ['\\', LowerChar(x[0])] else [LowerChar(x[0])];
    }
  }

  // --- URLs -----------------------------------------------------------------------------

  /** url.split("://", 1)[-1] */
  function AfterScheme(url: string): string {
    var r := SchemeRest(url);
    if r.Some? then r.value else url
  }

  function SchemeRest(url: string): Option<string> {
    if "://" <= url then Some(url[3..])
    else if url == "" then None
    else SchemeRest(url[1..])
  }

  function NonEmpty(parts: seq<string>): (r: seq<string>)
    ensures forall p :: p in r ==> p != "" && p in parts
  {
    if parts == [] then []
    else (if parts[0] != "" then [parts[0]] else []) + NonEmpty(parts[1..])
  }

  const GIT_SUFFIX := ".git"

  function StripGit(name: string): string {
    if EndsWith(name, GIT_SUFFIX) then name[..|name| - 4] else name
  }

  /** (owner, name), lower case, from a URL or an owner/name slug. */
  function SplitRepoUrl(url: string): Option<(string, string)> {
    var parts := NonEmpty(SplitOn(AfterScheme(url), '/'));
    if |parts| < 2 then None
    else
      var owner, name := parts[|parts| - 2], StripGit(parts[|parts| - 1]);
      if owner == "" || name == "" then None else Some((Lower(owner), Lower(name)))
  }

  lemma PartsAreNames(url: string)
    ensures forall part :: part in NonEmpty(SplitOn(AfterScheme(url), '/')) ==> part != "" && '/' !in part
  {
  }

  lemma StripGitKeeps(s: string)
    requires '/' !in s
    ensures '/' !in StripGit(s)
  {
  }

  lemma SplitNamesAreValid(url: string)
    ensures var r := SplitRepoUrl(url);
            r.Some? ==> ValidName(r.value.0) && ValidName(r.value.1)
  {
    PartsAreNames(url);
    SplitOfParts(url, NonEmpty(SplitOn(AfterScheme(url), '/')));
  }

  lemma SplitOfParts(url: string, parts: seq<string>)
    requires parts == NonEmpty(SplitOn(AfterScheme(url), '/')) && forall part :: part in parts ==> part != "" && '/' !in part
    ensures SplitRepoUrl(url).Some? ==> ValidName(SplitRepoUrl(url).value.0) && ValidName(SplitRepoUrl(url).value.1)
  {
    if |parts| >= 2 && StripGit(parts[|parts| - 1]) != "" {
      assert parts[|parts| - 2] in parts && parts[|parts| - 1] in parts;
      LowerIsValid(parts[|parts| - 2]);
      StripGitKeeps(parts[|parts| - 1]);
      LowerIsValid(StripGit(parts[|parts| - 1]));
    }
  }

  lemma LowerIsValid(s: string)
    requires s != "" && '/' !in s
    ensures ValidName(Lower(s))
  {
    LowerIdempotent(s);
    LowerNoSlash(s);
  }

  lemma LowerNoSlash(s: string)
    requires '/' !in s
    ensures '/' !in Lower(s)
  {
    forall i | 0 <= i < |s| ensures Lower(s)[i] != '/' {
      assert s[i] in s;
    }
  }

  // --- the list and its file format -----------------------------------------------------

  datatype Blocklist = Blocklist(owners: set<string>, repos: set<string>)

  const EMPTY := Blocklist({}, {})

  predicate ValidName(s: string) { s != "" && '/' !in s && Lower(s) == s }

  /** An owner/name slug of two valid names. */
  predicate ValidSlug(s: string) {
    var parts := SplitOn(s, '/');
    |parts| == 2 && ValidName(parts[0]) && ValidName(parts[1])
  }

  ghost predicate WellFormed(bl: Blocklist) {
    && (forall o :: o in bl.owners ==> ValidName(o))
    && (forall r :: r in bl.repos ==> ValidSlug(r))
  }

  function Slug(owner: string, name: string): string { owner + ['/'] + name }

  lemma SlugIsValid(owner: string, name: string)
    requires ValidName(owner) && ValidName(name)
    ensures ValidSlug(Slug(owner, name)) && SplitOn(Slug(owner, name), '/') == [owner, name]
  {
    SplitHead(owner, name, '/');
  }

  predicate IsSpace(c: char) { c == ' ' || 9 as char <= c <= 13 as char || 28 as char <= c <= 31 as char }

  function Strip(s: string): string {
    if s == "" then ""
    else if IsSpace(s[0]) then Strip(s[1..])
    else if IsSpace(s[|s| - 1]) then Strip(s[..|s| - 1])
    else s
  }

  datatype Entry = OwnerEntry(owner: string) | RepoEntry(slug: string) | Ignored

  /** What one line of the file adds. */
  function ParseEntry(raw: string): Entry {
    var entry := Strip(SplitOn(raw, '#')[0]);
    if entry == "" then Ignored
    else if '/' !in entry then OwnerEntry(Lower(entry))
    else
      match SplitRepoUrl(entry)
      case None => Ignored
      case Some(split) => RepoEntry(Slug(split.0, split.1))
  }

  function Entries(lines: seq<string>): seq<Entry> {
    seq(|lines|, i requires 0 <= i < |lines| => ParseEntry(lines[i]))
  }

  method ParseList(lines: seq<string>) returns (bl: Blocklist)
    ensures WellFormed(bl)
    ensures forall o :: o in bl.owners <==> OwnerEntry(o) in Entries(lines)
    ensures forall r :: r in bl.repos <==> RepoEntry(r) in Entries(lines)
  {
    var owners: set<string>, repos: set<string> := {}, {};
    ghost var entries: seq<Entry> := [];
    for n := 0 to |lines|
      invariant WellFormed(Blocklist(owners, repos))
      invariant entries == Entries(lines)[..n]
      invariant forall o :: o in owners <==> OwnerEntry(o) in entries
      invariant forall r :: r in repos <==> RepoEntry(r) in entries
    {
      EntryIsValid(lines[n]);
      entries := entries + [ParseEntry(lines[n])];
      match ParseEntry(lines[n])
      case OwnerEntry(o) => owners := owners + {o};
      case RepoEntry(r) => repos := repos + {r};
      case Ignored =>
    }
    bl := Blocklist(owners, repos);
  }

  lemma EntryIsValid(raw: string)
    ensures var e := ParseEntry(raw);
            && (e.OwnerEntry? ==> ValidName(e.owner))
            && (e.RepoEntry? ==> ValidSlug(e.slug))
  {
    var entry := Strip(SplitOn(raw, '#')[0]);
    LowerIdempotent(entry);
    if '/' !in entry { LowerNoSlash(entry); }
    var split := SplitRepoUrl(entry);
    SplitNamesAreValid(entry);
    if split.Some? { SlugIsValid(split.value.0, split.value.1); }
  }

  // --- what a line says, in its own text ----------------------------------------------------------

  predicate Blank(s: string) { forall k :: 0 <= k < |s| ==> IsSpace(s[k]) }

  predicate Trimmed(s: string) { s != "" ==> !IsSpace(s[0]) && !IsSpace(s[|s| - 1]) }

  /** A line: blanks, a text, blanks, and perhaps a comment. */
  ghost predicate IsLine(raw: string, a: string, text: string, b: string, comment: string) {
    && raw == a + text + b + comment
    && Blank(a) && Blank(b) && Trimmed(text) && '#' !in a + text + b
    && (comment != "" ==> comment[0] == '#')
  }

  lemma {:induction false} StripsBlanks(a: string, text: string, b: string)
    requires Blank(a) && Blank(b) && Trimmed(text)
    ensures Strip(a + text + b) == text
    decreases |a| + |b|
  {
    var s := a + text + b;
    if a != "" {
      assert s[0] == a[0] && s[1..] == a[1..] + text + b;
      StripsBlanks(a[1..], text, b);
    } else if b != "" {
      var n := |b| - 1;
      assert s[|s| - 1] == b[n] && s[..|s| - 1] == a + text + b[..n];
      StripsBlanks(a, text, b[..n]);
      if text == "" {
        assert s == b && s[1..] == a + text + b[1..];
        StripsBlanks(a, text, b[1..]);
      }
    } else {
      assert s == text;
    }
  }

  lemma BeforeComment(front: string, comment: string)
    requires '#' !in front && (comment != "" ==> comment[0] == '#')
    ensures SplitOn(front + comment, '#')[0] == front
  {
    if comment == "" {
      assert front + comment == front;
    } else {
      assert comment == ['#'] + comment[1..];
      assert front + comment == front + ['#'] + comment[1..];
      SplitHead(front, comment[1..], '#');
    }
  }

  /** The text of a line decides its entry: nothing, an owner, or a repository. */
  lemma LineText(raw: string, a: string, text: string, b: string, comment: string)
    requires IsLine(raw, a, text, b, comment)
    ensures text == "" ==> ParseEntry(raw).Ignored?
    ensures text != "" && '/' !in text ==> ParseEntry(raw) == OwnerEntry(Lower(text))
    ensures '/' in text && SplitRepoUrl(text).None? ==> ParseEntry(raw).Ignored?
    ensures '/' in text && SplitRepoUrl(text).Some? ==>
              ParseEntry(raw) == RepoEntry(SplitRepoUrl(text).value.0 + "/" + SplitRepoUrl(text).value.1)
  {
    BeforeComment(a + text + b, comment);
    StripsBlanks(a, text, b);
  }

  lemma {:induction false} NonEmptyConcat(a: seq<string>, b: seq<string>)
    ensures NonEmpty(a + b) == NonEmpty(a) + NonEmpty(b)
  {
    if a == [] {
      assert a + b == b;
    } else {
      assert (a + b)[1..] == a[1..] + b;
      NonEmptyConcat(a[1..], b);
    }
  }

  ghost predicate AllEmpty(segs: seq<string>) { forall k :: 0 <= k < |segs| ==> segs[k] == "" }

  lemma {:induction false} NoneNonEmpty(segs: seq<string>)
    requires AllEmpty(segs)
    ensures NonEmpty(segs) == []
  {
    if segs != [] { NoneNonEmpty(segs[1..]); }
  }

  /** The `i`-th and `j`-th segment are the last two that are not empty. */
  ghost predicate LastTwo(segs: seq<string>, i: nat, j: nat) {
    && i < j < |segs| && segs[i] != "" && segs[j] != ""
    && AllEmpty(segs[i + 1..j]) && AllEmpty(segs[j + 1..])
  }

  lemma NonEmptyEnds(segs: seq<string>, i: nat, j: nat)
    requires LastTwo(segs, i, j)
    ensures NonEmpty(segs) == NonEmpty(segs[..i]) + [segs[i], segs[j]]
  {
    var upToI, between, end := segs[..i] + [segs[i]], segs[i + 1..j], segs[j + 1..];
    NonEmptyOne(segs[..i], segs[i], between);
    NonEmptyOne(upToI + between, segs[j], end);
    assert segs == upToI + between + [segs[j]] + end;
  }

  lemma NonEmptyOne(front: seq<string>, seg: string, empties: seq<string>)
    requires seg != "" && AllEmpty(empties)
    ensures NonEmpty(front + [seg] + empties) == NonEmpty(front) + [seg]
  {
    NonEmptyConcat(front + [seg], empties);
    NonEmptyConcat(front, [seg]);
    NoneNonEmpty(empties);
    assert [seg][1..] == [];
    assert NonEmpty([]) == [];
    assert NonEmpty([seg]) == [seg];
  }

  /** A path with a scheme in front, or none. */
  ghost predicate IsUrl(url: string, path: string) {
    (url == path && !Contains(path, "://")) || exists scheme :: url == scheme + "://" + path && ':' !in scheme
  }

  lemma {:induction false} NoScheme(path: string)
    requires !Contains(path, "://")
    ensures SchemeRest(path) == None
  {
    if path != "" { NoScheme(path[1..]); }
  }

  lemma {:induction false} SchemeCut(scheme: string, path: string)
    requires ':' !in scheme
    ensures SchemeRest(scheme + "://" + path) == Some(path)
  {
    var s := scheme + "://" + path;
    if scheme == "" {
      assert "://" <= s && s[3..] == path;
    } else {
      assert s[0] == scheme[0] && s[1..] == scheme[1..] + "://" + path;
      SchemeCut(scheme[1..], path);
    }
  }

  lemma PathOfUrl(url: string, path: string)
    requires IsUrl(url, path)
    ensures AfterScheme(url) == path
  {
    if url == path && !Contains(path, "://") {
      NoScheme(path);
    } else {
      var scheme :| url == scheme + "://" + path && ':' !in scheme;
      SchemeCut(scheme, path);
    }
  }

  lemma PartsOfUrl(url: string, segs: seq<string>)
    requires segs != [] && (forall p :: p in segs ==> '/' !in p) && IsUrl(url, Join(segs, '/'))
    ensures SplitOn(AfterScheme(url), '/') == segs
  {
    PathOfUrl(url, Join(segs, '/'));
    SplitJoin(segs, '/');
  }

  lemma SplitOfEnds(url: string, front: seq<string>, owner: string, name: string)
    requires NonEmpty(SplitOn(AfterScheme(url), '/')) == front + [owner, name] && owner != ""
    ensures SplitRepoUrl(url) == if StripGit(name) == "" then None else Some((Lower(owner), Lower(StripGit(name))))
  {
  }

  /** Owner and name are the last two segments that are not empty, in small letters, the name
      without a `.git` at its end; there is none if that leaves no name. */
  lemma SplitLastTwo(url: string, segs: seq<string>, i: nat, j: nat, base: string)
    requires LastTwo(segs, i, j) && (forall p :: p in segs ==> '/' !in p) && IsUrl(url, Join(segs, '/'))
    requires segs[j] == base + GIT_SUFFIX || (segs[j] == base && !EndsWith(base, GIT_SUFFIX))
    ensures SplitRepoUrl(url) == if base == "" then None else Some((Lower(segs[i]), Lower(base)))
  {
    PartsOfUrl(url, segs);
    NonEmptyEnds(segs, i, j);
    WithoutGit(segs[j], base);
    SplitOfEnds(url, NonEmpty(segs[..i]), segs[i], segs[j]);
  }

  lemma WithoutGit(name: string, base: string)
    requires name == base + GIT_SUFFIX || (name == base && !EndsWith(base, GIT_SUFFIX))
    ensures StripGit(name) == base
  {
    if name == base + GIT_SUFFIX {
      assert name[|base|..] == GIT_SUFFIX && name[..|base|] == base;
    }
  }

  lemma {:induction false} AtMostOne(segs: seq<string>, j: nat)
    requires j < |segs| && AllEmpty(segs[..j]) && AllEmpty(segs[j + 1..])
    ensures |NonEmpty(segs)| <= 1
  {
    if j == 0 {
      NoneNonEmpty(segs[1..]);
    } else {
      assert segs[..j][0] == segs[0] && segs[1..][..j - 1] == segs[..j][1..] && segs[1..][j..] == segs[j + 1..];
      AtMostOne(segs[1..], j - 1);
    }
  }

  /** And none for a path with one such segment or none. */
  lemma SplitTooFew(url: string, segs: seq<string>, j: nat)
    requires j < |segs| && AllEmpty(segs[..j]) && AllEmpty(segs[j + 1..])
    requires (forall p :: p in segs ==> '/' !in p) && IsUrl(url, Join(segs, '/'))
    ensures SplitRepoUrl(url) == None
  {
    PartsOfUrl(url, segs);
    AtMostOne(segs, j);
  }

  // --- the predicate and its SQL form ---------------------------------------------------

  /** The Python predicate. */
  predicate UrlListed(bl: Blocklist, url: string) {
    var split := SplitRepoUrl(url);
    split.Some? && (split.value.0 in bl.owners || Slug(split.value.0, split.value.1) in bl.repos)
  }

  function OwnerPattern(owner: string): string { "%/" + Escaped(owner) + "/%" }
  function RepoPattern(slug: string): string { "%/" + Escaped(slug) }
  function RepoPathPattern(slug: string): string { "%/" + Escaped(slug) + "/%" }

  ghost predicate IsPattern(bl: Blocklist, p: string) {
    || (exists o :: o in bl.owners && p == OwnerPattern(o))
    || (exists r :: r in bl.repos && (p == RepoPattern(r) || p == RepoPathPattern(r)))
  }

  method LikePatterns(bl: Blocklist) returns (patterns: seq<string>)
    ensures forall p :: p in patterns <==> IsPattern(bl, p)
    ensures patterns == [] <==> bl == EMPTY
  {
    patterns := OwnerPatterns(bl.owners);
    ghost var start := patterns;
    var repos := bl.repos;
    while repos != {}
      invariant repos <= bl.repos
      invariant forall p :: p in patterns <==>
        p in start || exists r :: r in bl.repos && r !in repos && (p == RepoPattern(r) || p == RepoPathPattern(r))
      invariant repos != bl.repos ==> patterns != []
      invariant repos == bl.repos ==> patterns == start
    {
      var r :| r in repos;
      var escaped := EscapeLike(r);
      ghost var before := patterns;
      patterns := patterns + ["%/" + escaped, "%/" + escaped + "/%"];
      assert forall p :: p in patterns <==> p in before || p == RepoPattern(r) || p == RepoPathPattern(r);
      repos := repos - {r};
    }
  }

  method OwnerPatterns(all: set<string>) returns (patterns: seq<string>)
    ensures forall p :: p in patterns <==> exists o :: o in all && p == OwnerPattern(o)
    ensures patterns == [] <==> all == {}
  {
    patterns := [];
    var owners := all;
    while owners != {}
      invariant owners <= all
      invariant forall p :: p in patterns <==> exists o :: o in all && o !in owners && p == OwnerPattern(o)
      invariant patterns == [] <==> owners == all
    {
      var o :| o in owners;
      var escaped := EscapeLike(o);
      ghost var before := patterns;
      patterns := patterns + ["%/" + escaped + "/%"];
      assert forall p :: p in patterns <==> p in before || p == OwnerPattern(o);
      owners := owners - {o};
    }
  }

  /** The disjunction of the patterns under ILIKE: what the SQL query excludes. */
  ghost predicate LikeBlocked(bl: Blocklist, url: string) {
    exists p :: IsPattern(bl, p) && ILike(p, url)
  }
}
