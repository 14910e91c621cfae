/** The cloneable form of a stored URL (backend/assemblage/coordinator/dispatch.py, patch_url). */
module CloneUrl {
  import opened Text

  /** s.replace(w, "") */
  function Remove(s: string, w: string): string
    requires w != ""
  {
    if s == "" then ""
    else if w <= s then Remove(s[|w|..], w)
    else [s[0]] + Remove(s[1..], w)
  }

  const REPOS_MARK := "repos/"
  const API_MARK := "api."

  function PatchUrl(url: string): string { Remove(Remove(url, REPOS_MARK), API_MARK) }

  // --- what a removal leaves alone -----------------------------------------------------------

  /** A removal never lengthens, and shortens exactly the strings that hold the word. */
  lemma {:induction false} RemoveLength(s: string, w: string)
    requires w != ""
    ensures |Remove(s, w)| <= |s|
    ensures |Remove(s, w)| == |s| <==> !Contains(s, w)
    ensures Remove(s, w) == s <==> !Contains(s, w)
  {
    if s != "" {
      if w <= s { RemoveLength(s[|w|..], w); } else { RemoveLength(s[1..], w); }
    }
  }

  /** Text without the word's first letter is passed over. */
  lemma {:induction false} RemoveSkips(a: string, s: string, w: string)
    requires w != "" && w[0] !in a
    ensures Remove(a + s, w) == a + Remove(s, w)
  {
    if a == "" {
      assert a + s == s;
    } else {
      assert (a + s)[1..] == a[1..] + s;
      RemoveSkips(a[1..], s, w);
    }
  }

  lemma RemoveHead(s: string, w: string)
    requires w != ""
    ensures Remove(w + s, w) == Remove(s, w)
  {
    assert (w + s)[|w|..] == s;
  }

  // --- the two stored shapes -----------------------------------------------------------------

  function ApiUrl(path: string): string { "https://" + ("api." + ("github.com/" + ("repos/" + path))) }
  function GitUrl(path: string): string { "https://" + ("github.com/" + path) }

  lemma Letters()
    ensures 'a' !in "https://" && 'a' !in "github.com/"
    ensures 'r' !in "https://" && 'r' !in "api." && 'r' !in "github.com/"
  {
  }

  lemma PatchedApi(path: string)
    ensures Remove(ApiUrl(path), REPOS_MARK) == "https://" + ("api." + ("github.com/" + Remove(path, REPOS_MARK)))
  {
    Letters();
    RemoveSkips("https://", "api." + ("github.com/" + ("repos/" + path)), REPOS_MARK);
    RemoveSkips("api.", "github.com/" + ("repos/" + path), REPOS_MARK);
    RemoveSkips("github.com/", "repos/" + path, REPOS_MARK);
    RemoveHead(path, REPOS_MARK);
  }

  lemma PatchedHost(path: string)
    ensures Remove("https://" + ("api." + ("github.com/" + path)), API_MARK) == GitUrl(Remove(path, API_MARK))
  {
    Letters();
    RemoveSkips("https://", "api." + ("github.com/" + path), API_MARK);
    RemoveHead("github.com/" + path, API_MARK);
    RemoveSkips("github.com/", path, API_MARK);
  }

  /** For any path, an API URL becomes the cloneable URL of that path exactly when the path
      itself holds neither removed word. */
  lemma PatchUrlExactly(path: string)
    ensures PatchUrl(ApiUrl(path)) == GitUrl(path) <==> !Contains(path, REPOS_MARK) && !Contains(path, API_MARK)
  {
    var once := Remove(path, REPOS_MARK);
    PatchedApi(path);
    PatchedHost(once);
    RemoveLength(path, REPOS_MARK);
    RemoveLength(once, API_MARK);
    assert |GitUrl(Remove(once, API_MARK))| == |GitUrl(path)| - |path| + |Remove(once, API_MARK)|;
  }

  /** The first word is in `owner/name` exactly when the owner's name ends in `repos`. */
  lemma ReposInPath(owner: string, name: string)
    requires '/' !in owner && '/' !in name
    ensures Contains(owner + ['/'] + name, REPOS_MARK) <==> EndsWith(owner, "repos")
  {
    var s := owner + ['/'] + name;
    ContainsMeansOccurs(s, REPOS_MARK);
    if EndsWith(owner, "repos") {
      assert OccursAt(s, REPOS_MARK, |owner| - 5) by { assert s[|owner| - 5..|owner| + 1] == owner[|owner| - 5..] + ['/']; }
    }
    if i :| OccursAt(s, REPOS_MARK, i) {
      assert s[i..i + 6][5] == '/';
      assert s[i + 5] == '/';
      assert forall k :: 0 <= k < |owner| ==> s[k] == owner[k];
      assert forall k :: |owner| < k < |s| ==> s[k] == name[k - |owner| - 1];
      assert i + 5 == |owner|;
      assert owner[i..] == s[i..i + 6][..5] == "repos";
    }
  }

  /** A stored API URL gives the repository's clone URL unless the owner ends in `repos` or the
      path holds `api.`; those repositories are dispatched under a URL that is not theirs. */
  lemma StoredUrlPatches(owner: string, name: string)
    requires '/' !in owner && '/' !in name
    ensures var path := owner + ['/'] + name;
            PatchUrl(ApiUrl(path)) == GitUrl(path) <==> !EndsWith(owner, "repos") && !Contains(path, API_MARK)
  {
    PatchUrlExactly(owner + ['/'] + name);
    ReposInPath(owner, name);
  }

  /** A URL is left as it is exactly when it holds neither removed word. */
  lemma PatchKeepsExactly(url: string)
    ensures PatchUrl(url) == url <==> !Contains(url, REPOS_MARK) && !Contains(url, API_MARK)
  {
    var once := Remove(url, REPOS_MARK);
    RemoveLength(url, REPOS_MARK);
    RemoveLength(once, API_MARK);
    RemoveLength(url, API_MARK);
  }

  /** The other stored shape, already a clone URL, stays what it is under the same condition on owner
      and name. */
  lemma StoredCloneUrlPatches(owner: string, name: string)
    requires '/' !in owner && '/' !in name
    ensures var path := owner + ['/'] + name;
            PatchUrl(GitUrl(path)) == GitUrl(path) <==> !EndsWith(owner, "repos") && !Contains(path, API_MARK)
  {
    var path := owner + ['/'] + name;
    var once := Remove(path, REPOS_MARK);
    Letters();
    RemoveSkips("https://", "github.com/" + path, REPOS_MARK);
    RemoveSkips("github.com/", path, REPOS_MARK);
    RemoveSkips("https://", "github.com/" + once, API_MARK);
    RemoveSkips("github.com/", once, API_MARK);
    RemoveLength(path, REPOS_MARK);
    RemoveLength(once, API_MARK);
    ReposInPath(owner, name);
    assert |PatchUrl(GitUrl(path))| == |GitUrl(path)| - |path| + |Remove(once, API_MARK)|;
  }
}
