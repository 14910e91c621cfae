/**
 Where an object of a v1 prefix goes in its v2 directory
 (backend/scripts/backfill_compress.py, backend/assemblage/storage/layout.py).
 */
module MigrationKeys {
  import opened Text
  import opened KeyParsers

  datatype Kind = Metadata | Ir | Binary

  const METADATA_NAME := "assemblage_meta.json"
  const METADATA_DIR := "metadata/"
  const BINARIES_DIR := "binaries/"
  const IR_DIR := "ir/"
  const COMPRESSED := ".zst"
  const MANIFEST_NAME := "export.json"

  function KindOf(rel: string): Kind {
    if rel == METADATA_NAME then Metadata else if IR_DIR <= rel then Ir else Binary
  }

  /** os.path.basename */
  function BaseName(rel: string): string {
    if '/' in rel then rel[LastIndex(rel, '/') + 1..] else rel
  }

  /** The base name is what follows the last slash. */
  lemma BaseNameIs(front: string, name: string)
    requires '/' !in name
    ensures BaseName(name) == name
    ensures BaseName(front + "/" + name) == name
  {
    var s := front + "/" + name;
    assert s[|front|] == '/';
    var i := LastIndex(s, '/');
    assert forall k :: |front| < k < |s| ==> s[k] == name[k - |front| - 1];
    assert forall k :: i < k < |s| ==> s[k] in s[i + 1..];
    assert i == |front|;
  }

  /** The key below the directory. */
  function Below(rel: string): string {
    match KindOf(rel)
    case Metadata => METADATA_DIR + METADATA_NAME + COMPRESSED
    case Ir => rel
    case Binary => BINARIES_DIR + BaseName(rel) + COMPRESSED
  }

  /** IR is what its relative name says. */
  lemma KindIsByPrefix(rel: string)
    ensures KindOf(rel).Ir? <==> "ir/" <= rel
    ensures KindOf(rel).Metadata? <==> rel == "assemblage_meta.json"
  {
    assert METADATA_NAME[0] == 'a';
  }

  function KeyIn(dir: string, name: string): string { dir + ['/'] + name }

  function Dst(dir: string, rel: string): string { KeyIn(dir, Below(rel)) }

  /** The destinations, as the layout names them. */
  lemma DstKeys(dir: string, rel: string)
    ensures "ir/" <= rel ==> Dst(dir, rel) == dir + "/" + rel
    ensures rel == "assemblage_meta.json" ==> Dst(dir, rel) == dir + "/metadata/" + "assemblage_meta.json" + ".zst"
    ensures !("ir/" <= rel) && rel != "assemblage_meta.json" ==> Dst(dir, rel) == dir + "/binaries/" + BaseName(rel) + ".zst"
    ensures ManifestKey(dir) == dir + "/" + "export.json"
  {
    KindIsByPrefix(rel);
    Slashed(dir, BINARIES_DIR, BaseName(rel), COMPRESSED);
    Slashed(dir, METADATA_DIR, METADATA_NAME, COMPRESSED);
    DirLiterals();
  }

  lemma DirLiterals()
    ensures ['/'] + BINARIES_DIR == "/binaries/" && ['/'] + METADATA_DIR == "/metadata/"
  {
  }

  lemma Slashed(dir: string, a: string, b: string, c: string)
    ensures KeyIn(dir, a + b + c) == dir + (['/'] + a) + b + c
  {
  }

  function ManifestKey(dir: string): string { KeyIn(dir, MANIFEST_NAME) }

  function Initial(k: Kind): char {
    match k
    case Metadata => 'm'
    case Ir => 'i'
    case Binary => 'b'
  }

  lemma BelowInitial(rel: string)
    ensures Below(rel) != "" && Below(rel)[0] == Initial(KindOf(rel))
  {
    assert METADATA_DIR[0] == 'm' && BINARIES_DIR[0] == 'b' && IR_DIR[0] == 'i';
  }

  lemma KeysEqual(dir: string, a: string, b: string)
    ensures KeyIn(dir, a) == KeyIn(dir, b) <==> a == b
  {
    if KeyIn(dir, a) == KeyIn(dir, b) {
      assert a == KeyIn(dir, a)[|dir| + 1..] == KeyIn(dir, b)[|dir| + 1..] == b;
    }
  }

  /** Two objects of a prefix share a destination exactly when both are binaries of the same
      base name. */
  lemma DstCollideExactly(dir: string, a: string, b: string)
    requires a != b
    ensures Dst(dir, a) == Dst(dir, b) <==> KindOf(a).Binary? && KindOf(b).Binary? && BaseName(a) == BaseName(b)
  {
    KeysEqual(dir, Below(a), Below(b));
    BelowInitial(a);
    BelowInitial(b);
    if KindOf(a).Binary? && KindOf(b).Binary? { SameMiddle(BaseName(a), BaseName(b)); }
  }

  lemma SameMiddle(a: string, b: string)
    ensures BINARIES_DIR + a + COMPRESSED == BINARIES_DIR + b + COMPRESSED <==> a == b
  {
    Middle(BINARIES_DIR, a, COMPRESSED);
    Middle(BINARIES_DIR, b, COMPRESSED);
  }

  lemma Middle(front: string, a: string, back: string)
    ensures var s := front + a + back; |s| >= |front| + |back| && s[|front|..|s| - |back|] == a
  {
  }

  lemma SameDstSameKind(dir: string, a: string, b: string)
    requires Dst(dir, a) == Dst(dir, b)
    ensures KindOf(a) == KindOf(b)
  {
    if a != b { DstCollideExactly(dir, a, b); }
  }

  /** No destination is the manifest. */
  lemma DstIsNotManifest(dir: string, rel: string)
    ensures Dst(dir, rel) != ManifestKey(dir)
  {
    BelowInitial(rel);
    KeysEqual(dir, Below(rel), MANIFEST_NAME);
    assert MANIFEST_NAME[0] == 'e';
  }

  // --- keys of the old prefix ---------------------------------------------------------------

  predicate Under(prefix: string, key: string) { KeyIn(prefix, "") <= key }

  /** key[len(prefix) + 1:] */
  function Rel(prefix: string, key: string): string {
    if |key| > |prefix| then key[|prefix| + 1..] else ""
  }

  lemma UnderMeans(prefix: string, key: string)
    requires Under(prefix, key)
    ensures key == KeyIn(prefix, Rel(prefix, key))
  {
    assert key == KeyIn(prefix, "") + key[|prefix| + 1..];
  }

  /** A key of one slash-free directory is under no other. */
  lemma NotUnderOther(prefix: string, dir: string, name: string)
    requires Slashless(prefix) && Slashless(dir) && prefix != dir
    ensures !Under(prefix, KeyIn(dir, name))
  {
    if Under(prefix, KeyIn(dir, name)) {
      UnderMeans(prefix, KeyIn(dir, name));
      CutFirst(prefix, Rel(prefix, KeyIn(dir, name)), dir, name, '/');
    }
  }
}
