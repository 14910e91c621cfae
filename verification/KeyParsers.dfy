/**
 Printers and parsers of build prefixes (backend/assemblage/storage/layout.py,
 backend/scripts/backfill_compress.py, backend/scripts/export_corpus.py).
 */
module KeyParsers {
  import opened Wrappers
  import opened Text

  const RUST_MARKER := "_rustc-"
  const C_MODE := "RelWithDebInfo"

  // --- printers -----------------------------------------------------------------------------

  function Head(owner: string, project: string, sha: string): string {
    owner + ['_'] + project + ['_'] + sha
  }

  /** {head}_{compiler}_{flag} */
  function CPrefix(head: string, compiler: string, flag: string): string {
    head + ['_'] + compiler + ['_'] + flag
  }

  function Tail(backend: string, mode: string, flag: string): string {
    backend + ['_'] + (mode + ['_'] + flag)
  }

  /** {head}_rustc-{backend}_{mode}_{flag} */
  function RustPrefix(head: string, backend: string, mode: string, flag: string): string {
    head + RUST_MARKER + Tail(backend, mode, flag)
  }

  /** {head}-{flag}-{backend}-{mode}, the flag without its leading dashes */
  function DirOf(head: string, flag: string, backend: string, mode: string): string {
    head + ['-'] + LStrip(flag, '-') + ['-'] + backend + ['-'] + mode
  }

  function BuildDir(owner: string, project: string, sha: string, flag: string, backend: string, mode: string): string {
    DirOf(Head(owner, project, sha), flag, backend, mode)
  }

  // --- parsers ------------------------------------------------------------------------------

  /** Position of the first occurrence of `w`. */
  function IndexOf(s: string, w: string): (r: Option<nat>)
    ensures r.Some? ==> r.value + |w| <= |s| && s[r.value..r.value + |w|] == w
    ensures r.Some? <==> Contains(s, w)
  {
    if w <= s then Some(0)
    else if s == "" then None
    else
      match IndexOf(s[1..], w)
      case None => None
      case Some(i) => Some(i + 1)
  }

  datatype Parsed = Parsed(dir: string, backend: string, mode: string)

  function ParseTail(head: string, tail: string): Option<Parsed> {
    var parts := SplitOn(tail, '_');
    if |parts| != 3 then None
    else Some(Parsed(DirOf(head, parts[2], parts[0], parts[1]), parts[0], parts[1]))
  }

  /** prefix.partition(w), when `w` occurs. */
  function Partition(s: string, w: string): Option<(string, string)> {
    match IndexOf(s, w)
    case Some(i) => Some((s[..i], s[i + |w|..]))
    case None => None
  }

  function ParseV1(prefix: string): Option<Parsed> {
    match Partition(prefix, RUST_MARKER)
    case Some((head, tail)) => ParseTail(head, tail)
    case None =>
      var parts := RSplit(prefix, '_', 2);
      if |parts| != 3 then None
      else Some(Parsed(DirOf(parts[0], parts[2], parts[1], C_MODE), parts[1], C_MODE))
  }

  /** The folder name of a v1 prefix. */
  function DestName(prefix: string): Option<string> {
    match Partition(prefix, RUST_MARKER)
    case None => None
    case Some((head, tail)) =>
      var parts := SplitOn(tail, '_');
      if tail == "" || |parts| != 3 then None else Some(DirOf(head, parts[2], parts[0], parts[1]))
  }

  /** The two parsers give the same directory for every prefix that holds the marker. */
  lemma ParsersAgree(prefix: string)
    ensures Contains(prefix, RUST_MARKER) ==>
              DestName(prefix) == if ParseV1(prefix).Some? then Some(ParseV1(prefix).value.dir) else None
    ensures !Contains(prefix, RUST_MARKER) ==> DestName(prefix) == None
  {
    assert SplitOn("", '_') == [""];
  }

  // --- finding the marker -------------------------------------------------------------------

  /** A word whose first letter does not return: no occurrence overlaps another. */
  predicate Borderless(w: string) { w != "" && w[0] == '_' && '_' !in w[1..] }

  lemma MarkerIsBorderless()
    ensures Borderless(RUST_MARKER) && |RUST_MARKER| == 7
  {
  }

  lemma {:induction false} FoundAfterHead(h: string, w: string, tail: string)
    requires Borderless(w) && !Contains(h, w)
    ensures IndexOf(h + w + tail, w) == Some(|h|)
  {
    var s := h + w + tail;
    if h == "" {
      assert s == w + tail;
    } else {
      assert s[1..] == h[1..] + w + tail;
      FoundAfterHead(h[1..], w, tail);
      if w <= s { OverlapFree(h, w, tail); }
    }
  }

  lemma OverlapFree(h: string, w: string, tail: string)
    requires Borderless(w) && h != "" && w <= h + w + tail
    ensures w <= h
  {
    var s := h + w + tail;
    assert s[|h|] == '_';
    assert forall k :: 1 <= k < |w| ==> w[k] == w[1..][k - 1] != '_';
    assert w == s[..|w|];
  }

  lemma {:induction false} FoundInHead(h: string, w: string, rest: string)
    requires Contains(h, w)
    ensures IndexOf(h + rest, w) == IndexOf(h, w)
  {
    if !(w <= h) {
      assert (h + rest)[1..] == h[1..] + rest;
      FoundInHead(h[1..], w, rest);
      if w <= h + rest && |w| > |h| { NotLonger(h, w); }
    }
  }

  lemma {:induction false} NotLonger(h: string, w: string)
    requires Contains(h, w)
    ensures |w| <= |h|
  {
    if !(w <= h) { NotLonger(h[1..], w); }
  }

  // --- Rust prefixes ------------------------------------------------------------------------

  predicate Flat(s: string) { '_' !in s }

  lemma TailSplits(backend: string, mode: string, flag: string)
    ensures |SplitOn(Tail(backend, mode, flag), '_')| == 3 <==> Flat(backend) && Flat(mode) && Flat(flag)
    ensures Flat(backend) && Flat(mode) && Flat(flag) ==> SplitOn(Tail(backend, mode, flag), '_') == [backend, mode, flag]
  {
    SplitLength(Tail(backend, mode, flag), '_');
    TailCount(backend, mode, flag);
    CountZero(backend, '_');
    CountZero(mode, '_');
    CountZero(flag, '_');
    if Flat(backend) && Flat(mode) && Flat(flag) {
      SplitHead(backend, mode + ['_'] + flag, '_');
      SplitHead(mode, flag, '_');
    }
  }

  lemma TailCount(backend: string, mode: string, flag: string)
    ensures Count(Tail(backend, mode, flag), '_') == 2 + Count(backend, '_') + Count(mode, '_') + Count(flag, '_')
  {
    CountOne('_');
    CountConcat(backend + ['_'], mode + ['_'] + flag, '_');
    CountConcat(backend, ['_'], '_');
    CountConcat(mode + ['_'], flag, '_');
    CountConcat(mode, ['_'], '_');
  }

  lemma CountOne(c: char)
    ensures Count([c], c) == 1
  {
    assert [c][1..] == "";
  }

  /** A printed Rust prefix parses to the directory of its own fields exactly when its head does
      not hold the marker and no tail field holds an underscore; otherwise it is refused. */
  lemma RustPrefixExactly(head: string, backend: string, mode: string, flag: string)
    ensures ParseV1(RustPrefix(head, backend, mode, flag)) ==
            if !Contains(head, RUST_MARKER) && Flat(backend) && Flat(mode) && Flat(flag)
            then Some(Parsed(DirOf(head, flag, backend, mode), backend, mode)) else None
  {
    MarkerIsBorderless();
    ParsedRust(head, RUST_MARKER, backend, mode, flag);
  }

  lemma ParsedRust(head: string, w: string, backend: string, mode: string, flag: string)
    requires Borderless(w)
    ensures var cut := Partition(head + w + Tail(backend, mode, flag), w);
            && cut.Some?
            && ParseTail(cut.value.0, cut.value.1) ==
               if !Contains(head, w) && Flat(backend) && Flat(mode) && Flat(flag)
               then Some(Parsed(DirOf(head, flag, backend, mode), backend, mode)) else None
  {
    if !Contains(head, w) {
      CutAtMarker(head, w, Tail(backend, mode, flag));
      TailSplits(backend, mode, flag);
    } else {
      var rest := CutInHead(head, w, Tail(backend, mode, flag));
      TooManyParts(rest, w, backend, mode, flag);
    }
  }

  lemma CutAtMarker(head: string, w: string, tail: string)
    requires Borderless(w) && !Contains(head, w)
    ensures Partition(head + w + tail, w) == Some((head, tail))
  {
    var s := head + w + tail;
    FoundAfterHead(head, w, tail);
    assert s[..|head|] == head && s[|head| + |w|..] == tail;
  }

  lemma CutInHead(head: string, w: string, tail: string) returns (rest: string)
    requires Contains(head, w)
    ensures Partition(head + w + tail, w).Some? && Partition(head + w + tail, w).value.1 == rest + (w + tail)
  {
    var s := head + (w + tail);
    assert s == head + w + tail;
    FoundInHead(head, w, w + tail);
    var j := IndexOf(head, w).value + |w|;
    rest := head[j..];
    DropFromHead(head, w + tail, j);
  }

  lemma DropFromHead(head: string, rest: string, j: nat)
    requires j <= |head|
    ensures (head + rest)[j..] == head[j..] + rest
  {
  }

  lemma TooManyParts(rest: string, w: string, backend: string, mode: string, flag: string)
    requires Borderless(w)
    ensures |SplitOn(rest + (w + Tail(backend, mode, flag)), '_')| > 3
  {
    var tail := Tail(backend, mode, flag);
    SplitLength(rest + (w + tail), '_');
    CountConcat(rest, w + tail, '_');
    CountConcat(w, tail, '_');
    TailCount(backend, mode, flag);
  }

  /** The same for the name the export gives it. */
  lemma RustDestNameExactly(head: string, backend: string, mode: string, flag: string)
    ensures DestName(RustPrefix(head, backend, mode, flag)) ==
            if !Contains(head, RUST_MARKER) && Flat(backend) && Flat(mode) && Flat(flag)
            then Some(DirOf(head, flag, backend, mode)) else None
  {
    RustPrefixExactly(head, backend, mode, flag);
    MarkerIsBorderless();
    ParsedRust(head, RUST_MARKER, backend, mode, flag);
    ParsersAgree(RustPrefix(head, backend, mode, flag));
  }

  // --- C prefixes ---------------------------------------------------------------------------

  /** Without the marker, a printed C prefix parses to the directory of its own fields, with the
      one mode C builds had, exactly when compiler and flag hold no underscore. */
  lemma CPrefixExactly(head: string, compiler: string, flag: string)
    requires !Contains(CPrefix(head, compiler, flag), RUST_MARKER)
    ensures ParseV1(CPrefix(head, compiler, flag)) == Some(Parsed(DirOf(head, flag, compiler, C_MODE), compiler, C_MODE))
            <==> Flat(compiler) && Flat(flag)
  {
    var parts := RSplit(CPrefix(head, compiler, flag), '_', 2);
    if Flat(flag) {
      RSplitLast(head + ['_'] + compiler, flag, '_', 2);
      if Flat(compiler) { RSplitLast(head, compiler, '_', 1); }
    } else {
      LongerHead(head, compiler, flag);
      DirChars(head, flag, compiler, C_MODE, |head|);
      DirChars(parts[0], parts[2], parts[1], C_MODE, |head|);
    }
  }

  lemma DirChars(head: string, flag: string, backend: string, mode: string, k: nat)
    requires k <= |head|
    ensures k < |DirOf(head, flag, backend, mode)|
    ensures DirOf(head, flag, backend, mode)[k] == if k < |head| then head[k] else '-'
  {
  }

  /** An underscore in the flag moves the cut: the head that is left runs on past the true one. */
  lemma LongerHead(head: string, compiler: string, flag: string)
    requires !Flat(flag)
    ensures var parts := RSplit(CPrefix(head, compiler, flag), '_', 2);
            |parts| == 3 && |parts[0]| > |head| && parts[0][|head|] == '_'
  {
    var i := LastIndex(flag, '_');
    var front := CPrefix(head, compiler, flag[..i]);
    assert CPrefix(head, compiler, flag) == front + ['_'] + flag[i + 1..];
    RSplitLast(front, flag[i + 1..], '_', 2);
    FrontHead(head, compiler, flag[..i]);
  }

  lemma FrontHead(head: string, compiler: string, rest: string)
    ensures var parts := RSplit(CPrefix(head, compiler, rest), '_', 1);
            |parts| == 2 && |parts[0]| > |head| && parts[0][|head|] == '_'
  {
    var front := CPrefix(head, compiler, rest);
    var m := |head| + 1 + |compiler|;
    assert front[m] == '_' && front[|head|] == '_';
    var j := LastIndex(front, '_');
    assert forall k :: j < k < |front| ==> front[k] == front[j + 1..][k - j - 1] != '_';
  }

  /** With the marker anywhere in it, a printed C prefix is never parsed to its own directory. */
  lemma CPrefixWithMarker(head: string, compiler: string, flag: string)
    requires Contains(CPrefix(head, compiler, flag), RUST_MARKER)
    ensures ParseV1(CPrefix(head, compiler, flag)) != Some(Parsed(DirOf(head, flag, compiler, C_MODE), compiler, C_MODE))
  {
    MarkerIsBorderless();
    MarkerMisleads(head, RUST_MARKER, compiler, flag, C_MODE);
  }

  /** The two pieces do not parse to the directory of these fields. */
  predicate Misled(front: string, tail: string, head: string, compiler: string, flag: string, mode: string) {
    ParseTail(front, tail) != Some(Parsed(DirOf(head, flag, compiler, mode), compiler, mode))
  }

  lemma MarkerMisleads(head: string, w: string, compiler: string, flag: string, mode: string)
    requires Borderless(w) && |w| > 1 && Contains(CPrefix(head, compiler, flag), w)
    ensures var cut := Partition(CPrefix(head, compiler, flag), w);
            cut.Some? && Misled(cut.value.0, cut.value.1, head, compiler, flag, mode)
  {
    MarkerAt(head, w, compiler, flag, mode, IndexOf(CPrefix(head, compiler, flag), w).value);
  }

  lemma MarkerAt(head: string, w: string, compiler: string, flag: string, mode: string, i: nat)
    requires Borderless(w) && |w| > 1
    requires var p := CPrefix(head, compiler, flag); i + |w| <= |p| && p[i..i + |w|] == w
    ensures var p := CPrefix(head, compiler, flag); Misled(p[..i], p[i + |w|..], head, compiler, flag, mode)
  {
    var p := CPrefix(head, compiler, flag);
    if i > |head| {
      MarkerPastHead(head, p[..i], p[i + |w|..], compiler, flag, mode);
    } else if i == |head| {
      ShortBackend(head, w, compiler, flag);
    } else {
      NoStraddle(head, w, compiler, flag, i);
      MarkerInHead(head, w, compiler, flag, mode, i);
    }
  }

  lemma MarkerPastHead(head: string, front: string, tail: string, compiler: string, flag: string, mode: string)
    requires |head| < |front| && front[|head|] == '_'
    ensures Misled(front, tail, head, compiler, flag, mode)
  {
    var parts := SplitOn(tail, '_');
    if |parts| == 3 {
      DirChars(front, parts[2], parts[0], parts[1], |head|);
      DirChars(head, flag, compiler, mode, |head|);
    }
  }

  lemma NoStraddle(head: string, w: string, compiler: string, flag: string, i: nat)
    requires var p := CPrefix(head, compiler, flag); Borderless(w) && i + |w| <= |p| && p[i..i + |w|] == w && i < |head|
    ensures i + |w| <= |head|
  {
    var p := CPrefix(head, compiler, flag);
    assert p[|head|] == '_';
    assert forall k :: 1 <= k < |w| ==> p[i + k] == w[k] == w[1..][k - 1] != '_';
  }

  lemma MarkerInHead(head: string, w: string, compiler: string, flag: string, mode: string, i: nat)
    requires i + |w| <= |head| && w != ""
    ensures var p := CPrefix(head, compiler, flag);
            Misled(p[..i], p[i + |w|..], head, compiler, flag, mode)
  {
    var p := CPrefix(head, compiler, flag);
    var rest := head[i + |w|..];
    assert p[i + |w|..] == Tail(rest, compiler, flag);
    TailSplits(rest, compiler, flag);
    DirLength(p[..i], flag, rest, compiler);
    DirLength(head, flag, compiler, mode);
  }

  lemma DirLength(head: string, flag: string, backend: string, mode: string)
    ensures |DirOf(head, flag, backend, mode)| == |head| + |LStrip(flag, '-')| + |backend| + |mode| + 3
  {
  }

  lemma ShortBackend(head: string, w: string, compiler: string, flag: string)
    requires Borderless(w) && |w| > 1
    requires var p := CPrefix(head, compiler, flag); |head| + |w| <= |p| && p[|head|..|head| + |w|] == w
    ensures var p := CPrefix(head, compiler, flag); SplitOn(p[|head| + |w|..], '_')[0] != compiler
  {
    var p := CPrefix(head, compiler, flag);
    var m := |head| + 1 + |compiler|;
    assert p[m] == '_';
    assert forall k :: 1 <= k < |w| ==> p[|head| + k] == w[k] == w[1..][k - 1] != '_';
    var rest := p[|head| + |w|..];
    assert rest[m - |head| - |w|] == '_';
    var i := FirstIndex(rest, '_');
    assert forall k :: 0 <= k < i ==> rest[k] == rest[..i][k] != '_';
  }

  // --- build directories ----------------------------------------------------------------------

  predicate Dashless(s: string) { '-' !in s }

  /** Two build directories with dash-free tails coincide exactly when their tails agree, flags up
      to leading dashes, and their heads are the same text. */
  lemma DirsEqualExactly(h: string, f: string, b: string, m: string, h': string, f': string, b': string, m': string)
    requires Dashless(LStrip(f, '-')) && Dashless(b) && Dashless(m)
    requires Dashless(LStrip(f', '-')) && Dashless(b') && Dashless(m')
    ensures DirOf(h, f, b, m) == DirOf(h', f', b', m') <==>
            h == h' && LStrip(f, '-') == LStrip(f', '-') && b == b' && m == m'
  {
    if DirOf(h, f, b, m) == DirOf(h', f', b', m') {
      var s, s' := LStrip(f, '-'), LStrip(f', '-');
      CutLast(h + ['-'] + s + ['-'] + b, m, h' + ['-'] + s' + ['-'] + b', m', '-');
      CutLast(h + ['-'] + s, b, h' + ['-'] + s', b', '-');
      CutLast(h, s, h', s', '-');
    }
  }

  /** The heads agree exactly when the shas do and owner and project join to the same text. */
  lemma HeadsEqualExactly(o: string, p: string, sha: string, o': string, p': string, sha': string)
    requires Flat(sha) && Flat(sha')
    ensures Head(o, p, sha) == Head(o', p', sha') <==> o + ['_'] + p == o' + ['_'] + p' && sha == sha'
  {
    if Head(o, p, sha) == Head(o', p', sha') { CutLast(o + ['_'] + p, sha, o' + ['_'] + p', sha', '_'); }
  }

  /** `build_dir` is injective up to the join of owner and project and the flag's leading dashes. */
  lemma BuildDirInjective(
    o: string, p: string, sha: string, f: string, b: string, m: string,
    o': string, p': string, sha': string, f': string, b': string, m': string)
    requires Flat(sha) && Dashless(LStrip(f, '-')) && Dashless(b) && Dashless(m)
    requires Flat(sha') && Dashless(LStrip(f', '-')) && Dashless(b') && Dashless(m')
    ensures BuildDir(o, p, sha, f, b, m) == BuildDir(o', p', sha', f', b', m') <==>
            o + ['_'] + p == o' + ['_'] + p' && sha == sha' && LStrip(f, '-') == LStrip(f', '-') && b == b' && m == m'
  {
    DirsEqualExactly(Head(o, p, sha), f, b, m, Head(o', p', sha'), f', b', m');
    HeadsEqualExactly(o, p, sha, o', p', sha');
  }

  /** The join is where two repositories can share a directory. */
  lemma JoinCollides(a: string, b: string, c: string, sha: string, f: string, k: string, m: string)
    ensures BuildDir(a + ['_'] + b, c, sha, f, k, m) == BuildDir(a, b + ['_'] + c, sha, f, k, m)
  {
    assert (a + ['_'] + b) + ['_'] + c == a + ['_'] + (b + ['_'] + c);
  }

  // --- which directories are taken for Rust builds --------------------------------------------

  const RUST_BACKENDS: set<string> := {"llvm", "cranelift", "gcc"}
  const BUILD_MODES: set<string> := {"Release", "Debug", "RelWithDebInfo"}

  function IsRustV2Dir(prefix: string): bool {
    var parts := RSplit(prefix, '-', 3);
    |parts| == 4 && parts[2] in RUST_BACKENDS && parts[3] in BUILD_MODES
  }

  /** A build directory is taken for a Rust one exactly when its backend and mode are among the
      known names, whatever its flag and head hold. */
  lemma RustDirExactly(head: string, flag: string, backend: string, mode: string)
    requires Dashless(backend) && Dashless(mode)
    ensures IsRustV2Dir(DirOf(head, flag, backend, mode)) <==> backend in RUST_BACKENDS && mode in BUILD_MODES
  {
    var front := head + ['-'] + LStrip(flag, '-');
    RSplitLast(front + ['-'] + backend, mode, '-', 3);
    RSplitLast(front, backend, '-', 2);
    assert front[|head|] == '-';
    assert |RSplit(front, '-', 1)| == 2;
  }

  /** So a migrated C build made with gcc is taken for a Rust build. */
  lemma GccBuildTakenForRust(head: string, flag: string)
    requires Flat(flag) && !Contains(CPrefix(head, "gcc", flag), RUST_MARKER)
    ensures ParseV1(CPrefix(head, "gcc", flag)).Some? && IsRustV2Dir(ParseV1(CPrefix(head, "gcc", flag)).value.dir)
  {
    CPrefixExactly(head, "gcc", flag);
    RustDirExactly(head, flag, "gcc", C_MODE);
  }

  // --- what the migration needs of a parsed prefix ---------------------------------------------

  /** The new directory is never the old prefix: where one has an underscore the other has a dash. */
  lemma DirIsNotPrefix(prefix: string)
    ensures ParseV1(prefix).Some? ==> ParseV1(prefix).value.dir != prefix
  {
    var cut := Partition(prefix, RUST_MARKER);
    if cut.Some? {
      var parts := SplitOn(cut.value.1, '_');
      MarkerIsBorderless();
      if |parts| == 3 {
        DirChars(cut.value.0, parts[2], parts[0], parts[1], |cut.value.0|);
        assert prefix[|cut.value.0|] == RUST_MARKER[0];
      }
    } else {
      var parts := RSplit(prefix, '_', 2);
      if |parts| == 3 {
        RSplitCut(prefix);
        DirChars(parts[0], parts[2], parts[1], C_MODE, |parts[0]|);
      }
    }
  }

  lemma RSplitCut(prefix: string)
    requires |RSplit(prefix, '_', 2)| == 3
    ensures var parts := RSplit(prefix, '_', 2); |parts[0]| < |prefix| && prefix[|parts[0]|] == '_'
  {
    var i := LastIndex(prefix, '_');
    var j := LastIndex(prefix[..i], '_');
    assert prefix[j] == prefix[..i][j];
    assert RSplit(prefix[..i], '_', 1) == [prefix[..i][..j]] + [prefix[..i][j + 1..]];
    assert RSplit(prefix, '_', 2) == RSplit(prefix[..i], '_', 1) + [prefix[i + 1..]];
  }

  predicate Slashless(s: string) { '/' !in s }

  lemma DirOfSlashless(head: string, flag: string, backend: string, mode: string)
    requires Slashless(head) && Slashless(flag) && Slashless(backend) && Slashless(mode)
    ensures Slashless(DirOf(head, flag, backend, mode))
  {
    StripCharsIn(flag);
  }

  lemma PartsSlashless(s: string)
    requires Slashless(s)
    ensures forall part :: part in SplitOn(s, '_') || part in RSplit(s, '_', 2) ==> Slashless(part)
  {
    SplitCharsIn(s);
    RSplitCharsIn(s, 2);
  }

  /** A prefix without a slash gives a directory without one. */
  lemma DirHasNoSlash(prefix: string)
    requires Slashless(prefix)
    ensures ParseV1(prefix).Some? ==> Slashless(ParseV1(prefix).value.dir)
  {
    var cut := Partition(prefix, RUST_MARKER);
    if cut.Some? {
      var head, tail := cut.value.0, cut.value.1;
      assert Slashless(head) && Slashless(tail);
      PartsSlashless(tail);
      var parts := SplitOn(tail, '_');
      if |parts| == 3 {
        assert parts[0] in parts && parts[1] in parts && parts[2] in parts;
        DirOfSlashless(head, parts[2], parts[0], parts[1]);
      }
    } else {
      PartsSlashless(prefix);
      var parts := RSplit(prefix, '_', 2);
      if |parts| == 3 {
        assert parts[0] in parts && parts[1] in parts && parts[2] in parts;
        DirOfSlashless(parts[0], parts[2], parts[1], C_MODE);
      }
    }
  }

  lemma {:induction false} SplitCharsIn(s: string)
    ensures forall part, c :: part in SplitOn(s, '_') && c in part ==> c in s
    decreases |s|
  {
    if '_' in s { SplitCharsIn(s[FirstIndex(s, '_') + 1..]); }
  }

  lemma {:induction false} RSplitCharsIn(s: string, n: nat)
    ensures forall part, c :: part in RSplit(s, '_', n) && c in part ==> c in s
  {
    if n > 0 && '_' in s {
      var i := LastIndex(s, '_');
      RSplitCharsIn(s[..i], n - 1);
      assert RSplit(s, '_', n) == RSplit(s[..i], '_', n - 1) + [s[i + 1..]];
    }
  }

  lemma {:induction false} StripCharsIn(s: string)
    ensures forall c :: c in LStrip(s, '-') ==> c in s
  {
    if s != "" && s[0] == '-' { StripCharsIn(s[1..]); }
  }

  // --- every prefix ---------------------------------------------------------------------------------

  lemma {:induction false} StripsAll(k: nat, rest: string)
    requires rest == "" || rest[0] != '-'
    ensures LStrip(seq(k, _ => '-') + rest, '-') == rest
  {
    var s := seq(k, _ => '-') + rest;
    if k == 0 {
      assert s == rest;
    } else {
      StripsAll(k - 1, rest);
      assert s[1..] == seq(k - 1, _ => '-') + rest;
    }
  }

  /** The directory of a build whose flag is `k` dashes and then `rest`, letter by letter. */
  lemma DirText(owner: string, project: string, sha: string, k: nat, rest: string, backend: string, mode: string)
    requires rest == "" || rest[0] != '-'
    ensures BuildDir(owner, project, sha, seq(k, _ => '-') + rest, backend, mode) ==
            owner + "_" + project + "_" + sha + "-" + rest + "-" + backend + "-" + mode
  {
    StripsAll(k, rest);
  }

  /** A build of a C project: unmarked, the compiler and the flag after its last two underscores. */
  ghost predicate IsCBuild(prefix: string, head: string, flag: string, p: Parsed) {
    && !Contains(prefix, RUST_MARKER) && prefix == head + "_" + p.backend + "_" + flag
    && Flat(p.backend) && Flat(flag) && p.mode == C_MODE && p.dir == DirOf(head, flag, p.backend, p.mode)
  }

  /** A build of a Rust project: three fields after the first marker. */
  ghost predicate IsRustBuild(prefix: string, head: string, flag: string, p: Parsed) {
    && !Contains(head, RUST_MARKER) && prefix == head + RUST_MARKER + p.backend + "_" + p.mode + "_" + flag
    && Flat(p.backend) && Flat(p.mode) && Flat(flag) && p.dir == DirOf(head, flag, p.backend, p.mode)
  }

  lemma UnmarkedBefore(s: string, w: string)
    requires w != "" && IndexOf(s, w).Some?
    ensures !Contains(s[..IndexOf(s, w).value], w)
  {
    var i := IndexOf(s, w).value;
    assert s == s[..i] + s[i..];
    if Contains(s[..i], w) { FoundInHead(s[..i], w, s[i..]); }
  }

  lemma RustText(head: string, backend: string, mode: string, flag: string)
    ensures head + RUST_MARKER + backend + "_" + mode + "_" + flag == RustPrefix(head, backend, mode, flag)
  {
    RegroupTail(head + RUST_MARKER, backend, mode, flag);
  }

  lemma RegroupTail(front: string, backend: string, mode: string, flag: string)
    ensures front + backend + "_" + mode + "_" + flag == front + Tail(backend, mode, flag)
  {
  }

  lemma TailOfThree(tail: string)
    ensures var parts := SplitOn(tail, '_');
            |parts| == 3 ==> tail == Tail(parts[0], parts[1], parts[2]) && Flat(parts[0]) && Flat(parts[1]) && Flat(parts[2])
  {
    var parts := SplitOn(tail, '_');
    JoinSplit(tail, '_');
    if |parts| == 3 {
      assert Join(parts[1..], '_') == parts[1] + ['_'] + parts[2];
      assert parts[0] in parts && parts[1] in parts && parts[2] in parts;
    }
  }

  lemma RSplitStep(s: string, n: nat)
    requires n > 0 && '_' in s
    ensures var i := LastIndex(s, '_');
            s == s[..i] + "_" + s[i + 1..] && RSplit(s, '_', n) == RSplit(s[..i], '_', n - 1) + [s[i + 1..]]
  {
  }

  lemma SplitOfThree(prefix: string)
    ensures var parts := RSplit(prefix, '_', 2);
            |parts| == 3 ==> prefix == parts[0] + "_" + parts[1] + "_" + parts[2] && Flat(parts[1]) && Flat(parts[2])
  {
    var parts := RSplit(prefix, '_', 2);
    if |parts| == 3 {
      RSplitStep(prefix, 2);
      var front := prefix[..LastIndex(prefix, '_')];
      RSplitStep(front, 1);
    }
  }

  lemma RustPrefixParses(prefix: string, head: string, flag: string, p: Parsed)
    requires IsRustBuild(prefix, head, flag, p)
    ensures ParseV1(prefix) == Some(p)
  {
    RustText(head, p.backend, p.mode, flag);
    RustPrefixExactly(head, p.backend, p.mode, flag);
  }

  lemma NoMarkerNoCut(prefix: string)
    ensures Partition(prefix, RUST_MARKER).Some? <==> Contains(prefix, RUST_MARKER)
  {
  }

  lemma CPrefixParses(prefix: string, head: string, flag: string, p: Parsed)
    requires IsCBuild(prefix, head, flag, p)
    ensures ParseV1(prefix) == Some(p)
  {
    assert prefix == CPrefix(head, p.backend, flag);
    CPrefixExactly(head, p.backend, flag);
  }

  lemma ParsedIsBuild(prefix: string) returns (head: string, flag: string)
    ensures ParseV1(prefix).Some? ==>
              IsRustBuild(prefix, head, flag, ParseV1(prefix).value) || IsCBuild(prefix, head, flag, ParseV1(prefix).value)
  {
    NoMarkerNoCut(prefix);
    var cut := Partition(prefix, RUST_MARKER);
    head, flag := "", "";
    if cut.Some? {
      MarkerIsBorderless();
      var parts := SplitOn(cut.value.1, '_');
      TailOfThree(cut.value.1);
      UnmarkedBefore(prefix, RUST_MARKER);
      if |parts| == 3 {
        head, flag := cut.value.0, parts[2];
        CutPieces(prefix, RUST_MARKER);
        RustText(head, parts[0], parts[1], flag);
      }
    } else {
      var parts := RSplit(prefix, '_', 2);
      SplitOfThree(prefix);
      if |parts| == 3 { head, flag := parts[0], parts[2]; }
    }
  }

  lemma CutPieces(s: string, w: string)
    requires Partition(s, w).Some?
    ensures s == Partition(s, w).value.0 + w + Partition(s, w).value.1
  {
    var i := IndexOf(s, w).value;
    assert s == s[..i] + s[i..i + |w|] + s[i + |w|..];
  }

  /** What the migration takes any prefix for: exactly a build of the one kind or the other. */
  lemma ParsedExactly(prefix: string, p: Parsed)
    ensures ParseV1(prefix) == Some(p) <==>
            exists head, flag :: IsRustBuild(prefix, head, flag, p) || IsCBuild(prefix, head, flag, p)
  {
    var h, f := ParsedIsBuild(prefix);
    if head, flag :| IsRustBuild(prefix, head, flag, p) || IsCBuild(prefix, head, flag, p) {
      if IsRustBuild(prefix, head, flag, p) {
        RustPrefixParses(prefix, head, flag, p);
      } else {
        CPrefixParses(prefix, head, flag, p);
      }
    }
  }
}
