/**
 The migration of one prefix: copy and verify each object, write the manifest, delete the
 originals (backend/scripts/backfill_compress.py, migrate).
 */
module Migration {
  import opened Wrappers
  import opened KeyParsers
  import opened MigrationKeys

  newtype byte = x: int | 0 <= x < 256

  type Bytes = seq<byte>

  /** The objects of the bucket, and how many more writes happen before the process dies. */
  class S3Bucket {
    var objects: map<string, Bytes>
    var budget: nat

    constructor (objects: map<string, Bytes>, budget: nat)
      ensures this.objects == objects && this.budget == budget
    {
      this.objects, this.budget := objects, budget;
    }

    method Put(key: string, bytes: Bytes) returns (alive: bool)
      modifies this
      ensures alive <==> old(budget) > 0
      ensures alive ==> objects == old(objects)[key := bytes] && budget == old(budget) - 1
      ensures !alive ==> objects == old(objects) && budget == 0
    {
      if budget == 0 { return false; }
      budget, objects := budget - 1, objects[key := bytes];
      return true;
    }

    /** Deletes the keys in order until the process dies; a key in `refused` is reported back and
        stays. */
    method Delete(keys: seq<string>, refused: set<string>) returns (alive: bool)
      modifies this
      ensures var n := if old(budget) < |keys| then old(budget) else |keys|;
              objects == old(objects) - (SetOf(keys[..n]) - refused) && budget == old(budget) - n
      ensures alive <==> |keys| <= old(budget)
    {
      for i := 0 to |keys|
        invariant budget == old(budget) - i
        invariant objects == old(objects) - (SetOf(keys[..i]) - refused)
      {
        if budget == 0 { return false; }
        budget := budget - 1;
        SetOfStep(keys, i);
        if keys[i] !in refused {
          objects := objects - {keys[i]};
        }
      }
      return true;
    }
  }

  function SetOf(keys: seq<string>): set<string> { set k | k in keys }

  lemma SetOfStep(keys: seq<string>, i: nat)
    requires i < |keys|
    ensures SetOf(keys[..i + 1]) == SetOf(keys[..i]) + {keys[i]}
  {
    assert forall k :: k in keys[..i + 1] <==> k in keys[..i] || k == keys[i];
  }

  // --- what must hold at every moment -------------------------------------------------------

  /** The prefix, its directory, the decompressor and the objects the prefix began with. */
  datatype Job = Job(prefix: string, dir: string, dec: Bytes -> Option<Bytes>, orig: map<string, Bytes>)

  ghost predicate WellFormed(j: Job) {
    && Slashless(j.prefix) && Slashless(j.dir) && j.prefix != j.dir
    && (forall k :: k in j.orig ==> Under(j.prefix, k) && Rel(j.prefix, k) != "")
  }

  function DstOf(j: Job, key: string): string { Dst(j.dir, Rel(j.prefix, key)) }

  /** No two originals go to the same key. */
  ghost predicate DistinctDst(j: Job) {
    forall k, k' :: k in j.orig && k' in j.orig && k != k' ==> DstOf(j, k) != DstOf(j, k')
  }

  /** Originals that go to the same key hold the same bytes. */
  ghost predicate Compatible(j: Job) {
    forall k, k' :: k in j.orig && k' in j.orig && DstOf(j, k) == DstOf(j, k') ==> j.orig[k] == j.orig[k']
  }

  function Restored(dec: Bytes -> Option<Bytes>, rel: string, stored: Bytes): Option<Bytes> {
    if KindOf(rel).Ir? then Some(stored) else dec(stored)
  }

  /** The new object gives back these bytes. */
  predicate Verified(j: Job, m: map<string, Bytes>, key: string, bytes: Bytes) {
    DstOf(j, key) in m && Restored(j.dec, Rel(j.prefix, key), m[DstOf(j, key)]) == Some(bytes)
  }

  ghost predicate Holds(j: Job, m: map<string, Bytes>, key: string) {
    key in j.orig && Verified(j, m, key, j.orig[key])
  }

  /** Under the prefix there is nothing but originals, unchanged. */
  ghost predicate Intact(j: Job, m: map<string, Bytes>) {
    && (forall k :: k in m && Under(j.prefix, k) && Rel(j.prefix, k) != "" ==> k in j.orig)
    && (forall k :: k in j.orig && k in m ==> m[k] == j.orig[k])
  }

  ghost predicate AllPresent(j: Job, m: map<string, Bytes>) {
    forall k :: k in j.orig ==> k in m
  }

  ghost predicate HasManifest(j: Job, m: map<string, Bytes>) { ManifestKey(j.dir) in m }

  /** Each original is still there or its copy decodes to it, what is there is unchanged, and
      nothing is missing without a manifest. */
  ghost predicate Safe(j: Job, m: map<string, Bytes>) {
    && Intact(j, m)
    && (forall k :: k in j.orig ==> k in m || Holds(j, m, k))
    && (AllPresent(j, m) || HasManifest(j, m))
  }

  ghost predicate AllVerified(j: Job, m: map<string, Bytes>) {
    forall k :: k in j.orig ==> Holds(j, m, k)
  }

  /** Either no copy overwrites another's, or it does so with the same bytes and while every
      original is there. */
  ghost predicate Sound(j: Job, m: map<string, Bytes>) {
    DistinctDst(j) || (Compatible(j) && AllPresent(j, m))
  }

  // --- each kind of write keeps it -----------------------------------------------------------

  lemma DstElsewhere(j: Job, key: string)
    requires WellFormed(j)
    ensures !Under(j.prefix, DstOf(j, key)) && DstOf(j, key) !in j.orig && DstOf(j, key) != ManifestKey(j.dir)
    ensures !Under(j.prefix, ManifestKey(j.dir)) && ManifestKey(j.dir) !in j.orig
  {
    NotUnderOther(j.prefix, j.dir, Below(Rel(j.prefix, key)));
    NotUnderOther(j.prefix, j.dir, MANIFEST_NAME);
    DstIsNotManifest(j.dir, Rel(j.prefix, key));
  }

  lemma CopyKeepsOthers(j: Job, m: map<string, Bytes>, key: string, lands: Bytes, k: string)
    requires DstOf(j, key) != DstOf(j, k)
    ensures Holds(j, m[DstOf(j, key) := lands], k) == Holds(j, m, k)
  {
  }

  lemma CopyKeepsIntact(j: Job, m: map<string, Bytes>, key: string, lands: Bytes)
    requires WellFormed(j) && Intact(j, m)
    ensures Intact(j, m[DstOf(j, key) := lands])
    ensures HasManifest(j, m[DstOf(j, key) := lands]) == HasManifest(j, m)
  {
    DstElsewhere(j, key);
  }

  /** Whatever lands at an object's destination while the object is still there. */
  lemma CopyKeepsSafe(j: Job, m: map<string, Bytes>, key: string, lands: Bytes)
    requires WellFormed(j) && Sound(j, m) && Safe(j, m) && key in j.orig && key in m
    ensures Safe(j, m[DstOf(j, key) := lands])
  {
    var m' := m[DstOf(j, key) := lands];
    CopyKeepsIntact(j, m, key, lands);
    forall k | k in j.orig ensures k in m' || Holds(j, m', k) {
      if k !in m { CopyKeepsOthers(j, m, key, lands, k); }
    }
  }

  lemma ManifestKeeps(j: Job, m: map<string, Bytes>, bytes: Bytes)
    requires WellFormed(j) && Intact(j, m)
    ensures Intact(j, m[ManifestKey(j.dir) := bytes])
    ensures forall k :: Holds(j, m[ManifestKey(j.dir) := bytes], k) == Holds(j, m, k)
  {
    DstElsewhere(j, "");
    forall k ensures Holds(j, m[ManifestKey(j.dir) := bytes], k) == Holds(j, m, k) {
      DstElsewhere(j, k);
    }
  }

  lemma DeleteKeeps(j: Job, m: map<string, Bytes>, removed: set<string>)
    requires WellFormed(j) && Intact(j, m) && forall k :: k in removed ==> k in j.orig
    ensures Intact(j, m - removed) && HasManifest(j, m - removed) == HasManifest(j, m)
    ensures forall k :: Holds(j, m - removed, k) == Holds(j, m, k)
  {
    DstElsewhere(j, "");
    forall k ensures Holds(j, m - removed, k) == Holds(j, m, k) {
      DstElsewhere(j, k);
    }
  }

  /** Deleting verified objects under a manifest. */
  lemma DeleteKeepsSafe(j: Job, m: map<string, Bytes>, removed: set<string>)
    requires WellFormed(j) && Safe(j, m) && HasManifest(j, m)
    requires forall k :: k in removed ==> Holds(j, m, k)
    ensures Safe(j, m - removed)
  {
    DeleteKeeps(j, m, removed);
  }

  // --- copies that overwrite each other ------------------------------------------------------

  /** Every key that is the last of its destination is verified. */
  ghost predicate LastHold(j: Job, m: map<string, Bytes>, keys: seq<string>) {
    forall i :: 0 <= i < |keys| && IsLast(j, keys, i) ==> Holds(j, m, keys[i])
  }

  ghost predicate IsLast(j: Job, keys: seq<string>, i: int)
    requires 0 <= i < |keys|
  {
    forall n :: i < n < |keys| ==> DstOf(j, keys[n]) != DstOf(j, keys[i])
  }

  lemma {:induction false} LastOf(j: Job, keys: seq<string>, i: nat) returns (last: nat)
    requires i < |keys|
    ensures i <= last < |keys| && DstOf(j, keys[last]) == DstOf(j, keys[i]) && IsLast(j, keys, last)
    decreases |keys| - i
  {
    last := i;
    if !IsLast(j, keys, i) {
      var n :| i < n < |keys| && DstOf(j, keys[n]) == DstOf(j, keys[i]);
      last := LastOf(j, keys, n);
    }
  }

  lemma LastHoldStep(j: Job, m: map<string, Bytes>, keys: seq<string>, key: string, lands: Bytes)
    requires LastHold(j, m, keys) && Holds(j, m[DstOf(j, key) := lands], key)
    ensures LastHold(j, m[DstOf(j, key) := lands], keys + [key])
  {
    var all := keys + [key];
    forall i | 0 <= i < |all| && IsLast(j, all, i) ensures Holds(j, m[DstOf(j, key) := lands], all[i]) {
      if i < |keys| {
        assert all[|keys|] == key && DstOf(j, key) != DstOf(j, all[i]);
        assert forall n :: i < n < |keys| ==> all[n] == keys[n];
        assert IsLast(j, keys, i);
        CopyKeepsOthers(j, m, key, lands, keys[i]);
      }
    }
  }

  /** One object at the destination of two originals gives back both exactly if they are equal. */
  lemma SameObject(j: Job, m: map<string, Bytes>, k: string, last: string)
    requires k in j.orig && DstOf(j, k) == DstOf(j, last) && Holds(j, m, last)
    ensures Holds(j, m, k) <==> j.orig[k] == j.orig[last]
  {
    SameDstSameKind(j.dir, Rel(j.prefix, k), Rel(j.prefix, last));
  }

  ghost predicate ComesBackAs(j: Job, m: map<string, Bytes>, k: string, l: string) {
    l in j.orig && DstOf(j, l) == DstOf(j, k) && Holds(j, m, l)
  }

  ghost predicate DstHolds(j: Job, m: map<string, Bytes>, k: string) { exists l :: ComesBackAs(j, m, k, l) }

  /** Each destination gives back one of the originals that went there. */
  ghost predicate EachDstHolds(j: Job, m: map<string, Bytes>) {
    forall k :: k in j.orig ==> DstHolds(j, m, k)
  }

  lemma LastOnesHold(j: Job, m: map<string, Bytes>, keys: seq<string>)
    requires LastHold(j, m, keys) && forall k :: k in keys <==> k in j.orig
    ensures EachDstHolds(j, m)
  {
    forall k | k in j.orig ensures DstHolds(j, m, k) {
      var i :| 0 <= i < |keys| && keys[i] == k;
      var last := LastOf(j, keys, i);
      assert keys[last] in keys;
      assert ComesBackAs(j, m, k, keys[last]);
    }
  }

  lemma EachDstStays(j: Job, m: map<string, Bytes>, m': map<string, Bytes>)
    requires EachDstHolds(j, m) && forall k :: Holds(j, m', k) == Holds(j, m, k)
    ensures EachDstHolds(j, m')
  {
    forall k | k in j.orig ensures DstHolds(j, m', k) {
      assert DstHolds(j, m, k);
      var l :| ComesBackAs(j, m, k, l);
      assert ComesBackAs(j, m', k, l);
    }
  }

  /** Of two originals that share a destination with no other, both come back exactly when their
      bytes are equal. */
  lemma SharedDestination(j: Job, m: map<string, Bytes>, k: string, k': string)
    requires EachDstHolds(j, m) && k in j.orig && k' in j.orig && DstOf(j, k) == DstOf(j, k')
    requires forall l :: l in j.orig && DstOf(j, l) == DstOf(j, k) ==> l == k || l == k'
    ensures Holds(j, m, k) || Holds(j, m, k')
    ensures Holds(j, m, k) && Holds(j, m, k') <==> j.orig[k] == j.orig[k']
  {
    assert DstHolds(j, m, k);
    var l :| ComesBackAs(j, m, k, l);
    SameObject(j, m, k, l);
    SameObject(j, m, k', l);
  }

  /** Then all originals are verified exactly when those of one destination hold the same bytes. */
  lemma AllVerifiedExactly(j: Job, m: map<string, Bytes>)
    requires EachDstHolds(j, m)
    ensures AllVerified(j, m) <==> Compatible(j)
  {
    if AllVerified(j, m) {
      forall k, k' | k in j.orig && k' in j.orig && DstOf(j, k) == DstOf(j, k') ensures j.orig[k] == j.orig[k'] {
        SameObject(j, m, k, k');
      }
    }
    if Compatible(j) {
      forall k | k in j.orig ensures Holds(j, m, k) {
        assert DstHolds(j, m, k);
        var l :| ComesBackAs(j, m, k, l);
        SameObject(j, m, k, l);
      }
    }
  }

  lemma PassedIfCompatible(j: Job, m: map<string, Bytes>, keys: seq<string>)
    requires LastHold(j, m, keys) && Compatible(j) && forall k :: k in keys ==> k in j.orig
    ensures forall k :: k in keys ==> Holds(j, m, k)
  {
    forall k | k in keys ensures Holds(j, m, k) {
      var i :| 0 <= i < |keys| && keys[i] == k;
      var last := LastOf(j, keys, i);
      SameObject(j, m, k, keys[last]);
    }
  }

  // --- one run ---------------------------------------------------------------------------------

  /** One run: how many writes it lives for, what lands for each object, uploaded or
      copied, what is written as the
      manifest, whether its first look fails, its flags, and the deletions refused. */
  datatype RunSpec = RunSpec(
    budget: nat, lands: string -> Bytes, manifest: Bytes, headFails: bool, apply: bool, keepRaw: bool, refused: set<string>)

  predicate Deletes(run: RunSpec) { run.apply && !run.keepRaw }

  /** What the run leaves at an object's destination, decompressed unless it is IR, is the original. */
  predicate Decodes(j: Job, run: RunSpec, key: string) {
    key in j.orig && Restored(j.dec, Rel(j.prefix, key), run.lands(key)) == Some(j.orig[key])
  }

  ghost function Remaining(j: Job, m: map<string, Bytes>): set<string> {
    set k | k in j.orig && k in m
  }

  /** The run gets as far as the manifest: every copy decodes, and it lives long enough. */
  ghost predicate Writes(j: Job, run: RunSpec, left: set<string>) {
    (forall k :: k in left ==> Decodes(j, run, k)) && run.budget >= |left| + 1
  }

  /** And it deletes everything: its flags say so, it lives to the end, nothing is refused. */
  ghost predicate Clears(j: Job, run: RunSpec, left: set<string>) {
    Writes(j, run, left) && Deletes(run) && run.budget >= 2 * |left| + 1 && run.refused !! left
  }

  datatype Verdict = Dead | Mismatch | Good

  datatype Outcome = Unparseable | Skipped | VerifyFailed(key: string) | Died | Migrated

  /** The bucket's keys under the prefix, each once. */
  ghost predicate Lists(listing: seq<string>, prefix: string, m: map<string, Bytes>) {
    && (forall k :: k in listing <==> k in m && Under(prefix, k))
    && (forall i, n :: 0 <= i < n < |listing| ==> listing[i] != listing[n])
  }

  /** Nothing under the prefix was touched. */
  ghost predicate SamePrefix(j: Job, m0: map<string, Bytes>, m: map<string, Bytes>) {
    forall k :: Under(j.prefix, k) ==> (k in m <==> k in m0) && (k in m ==> m[k] == m0[k])
  }

  /** The listed keys that name an object. */
  function Named(prefix: string, listing: seq<string>): seq<string> {
    if listing == [] then []
    else Named(prefix, listing[..|listing| - 1]) +
         if Rel(prefix, listing[|listing| - 1]) == "" then [] else [listing[|listing| - 1]]
  }

  lemma {:induction false} NamedExactly(prefix: string, listing: seq<string>, k: string)
    ensures k in Named(prefix, listing) <==> k in listing && Rel(prefix, k) != ""
  {
    if listing != [] {
      NamedExactly(prefix, listing[..|listing| - 1], k);
      assert k in listing <==> k in listing[..|listing| - 1] || k == listing[|listing| - 1];
    }
  }

  lemma {:induction false} NamedFront(prefix: string, listing: seq<string>, i: nat)
    requires i <= |listing|
    ensures Named(prefix, listing[..i]) <= Named(prefix, listing)
  {
    if i == |listing| {
      assert listing[..i] == listing;
    } else {
      NamedFront(prefix, listing[..|listing| - 1], i);
      assert listing[..|listing| - 1][..i] == listing[..i];
    }
  }

  lemma NamedStep(prefix: string, listing: seq<string>, i: nat)
    requires i < |listing|
    ensures Named(prefix, listing[..i + 1]) ==
            Named(prefix, listing[..i]) + if Rel(prefix, listing[i]) == "" then [] else [listing[i]]
    ensures |Named(prefix, listing[..i + 1])| <= |Named(prefix, listing)|
  {
    assert listing[..i + 1][..i] == listing[..i];
    NamedFront(prefix, listing, i + 1);
  }

  /** The named keys of a listing are the originals that are left, each once. */
  lemma NamedIsRemaining(j: Job, m: map<string, Bytes>, listing: seq<string>)
    requires WellFormed(j) && Intact(j, m) && Lists(listing, j.prefix, m)
    ensures var keys := Named(j.prefix, listing);
            SetOf(keys) == Remaining(j, m) && |keys| == |Remaining(j, m)|
            && forall i, n :: 0 <= i < n < |keys| ==> keys[i] != keys[n]
  {
    var keys := Named(j.prefix, listing);
    forall k ensures k in SetOf(keys) <==> k in Remaining(j, m) { NamedExactly(j.prefix, listing, k); }
    NamedDistinct(j.prefix, listing);
    SizeOfDistinct(keys);
  }

  lemma {:induction false} NamedDistinct(prefix: string, listing: seq<string>)
    requires forall i, n :: 0 <= i < n < |listing| ==> listing[i] != listing[n]
    ensures forall i, n :: 0 <= i < n < |Named(prefix, listing)| ==> Named(prefix, listing)[i] != Named(prefix, listing)[n]
  {
    if listing != [] {
      var front, last := listing[..|listing| - 1], listing[|listing| - 1];
      NamedDistinct(prefix, front);
      NamedExactly(prefix, front, last);
      assert forall i :: 0 <= i < |Named(prefix, front)| ==> Named(prefix, front)[i] in Named(prefix, front);
    }
  }

  lemma {:induction false} SizeOfDistinct(keys: seq<string>)
    requires forall i, n :: 0 <= i < n < |keys| ==> keys[i] != keys[n]
    ensures |SetOf(keys)| == |keys|
  {
    if keys != [] {
      var n := |keys| - 1;
      SizeOfDistinct(keys[..n]);
      SetOfStep(keys, n);
      assert keys[..n + 1] == keys;
    }
  }

  /** One object: it is put at its destination, read back and compared. */
  method MigrateObject(b: S3Bucket, key: string, run: RunSpec, ghost j: Job, prefix: string, dir: string, dec: Bytes -> Option<Bytes>)
    returns (v: Verdict)
    requires j.prefix == prefix && j.dir == dir && j.dec == dec && key in b.objects
    modifies b
    ensures v.Dead? <==> old(b.budget) == 0
    ensures v.Dead? ==> b.objects == old(b.objects) && b.budget == 0
    ensures !v.Dead? ==>
              && b.objects == old(b.objects)[DstOf(j, key) := run.lands(key)]
              && b.budget == old(b.budget) - 1
              && (v.Good? <==> Verified(j, b.objects, key, old(b.objects)[key]))
    ensures !v.Dead? && "ir/" <= Rel(prefix, key) ==> (v.Good? <==> run.lands(key) == old(b.objects)[key])
    ensures !v.Dead? && !("ir/" <= Rel(prefix, key)) ==> (v.Good? <==> dec(run.lands(key)) == Some(old(b.objects)[key]))
  {
    KindIsByPrefix(Rel(prefix, key));
    var rel := Rel(prefix, key);
    var want := b.objects[key];
    var dst := Dst(dir, rel);
    var alive := b.Put(dst, run.lands(key));
    if !alive { return Dead; }
    var check := b.objects[dst];
    v := if Restored(dec, rel, check) == Some(want) then Good else Mismatch;
  }

  /** One object of the listing, with what the copy keeps. */
  method CopyOne(
    b: S3Bucket, key: string, run: RunSpec, ghost keys: seq<string>, ghost j: Job, prefix: string, dir: string,
    dec: Bytes -> Option<Bytes>)
    returns (v: Verdict)
    requires j.prefix == prefix && j.dir == dir && j.dec == dec
    requires WellFormed(j) && Intact(j, b.objects) && key in j.orig && key in b.objects
    modifies b
    ensures Intact(j, b.objects) && SamePrefix(j, old(b.objects), b.objects)
    ensures HasManifest(j, b.objects) == HasManifest(j, old(b.objects))
    ensures Sound(j, old(b.objects)) && Safe(j, old(b.objects)) ==> Sound(j, b.objects) && Safe(j, b.objects)
    ensures v.Dead? <==> old(b.budget) == 0
    ensures b.budget == if v.Dead? then 0 else old(b.budget) - 1
    ensures !v.Dead? ==> (v.Good? <==> Decodes(j, run, key)) && (v.Good? <==> Holds(j, b.objects, key))
    ensures v.Good? && LastHold(j, old(b.objects), keys) ==> LastHold(j, b.objects, keys + [key])
  {
    ghost var m, bytes := b.objects, run.lands(key);
    CopyKeepsIntact(j, m, key, bytes);
    DstElsewhere(j, key);
    if Sound(j, m) && Safe(j, m) { CopyKeepsSafe(j, m, key, bytes); }
    v := MigrateObject(b, key, run, j, prefix, dir, dec);
    if v.Good? && LastHold(j, m, keys) { LastHoldStep(j, m, keys, key, bytes); }
  }

  /** Copies and verifies every listed object; stops at the first mismatch or at a crash. */
  method CopyAll(
    b: S3Bucket, listing: seq<string>, run: RunSpec, ghost j: Job, prefix: string, dir: string, dec: Bytes -> Option<Bytes>)
    returns (r: Outcome, migrated: seq<string>)
    requires j.prefix == prefix && j.dir == dir && j.dec == dec
    requires WellFormed(j) && Intact(j, b.objects) && Lists(listing, prefix, b.objects)
    modifies b
    ensures r.Died? || r.VerifyFailed? || r.Migrated?
    ensures Intact(j, b.objects) && SamePrefix(j, old(b.objects), b.objects)
    ensures HasManifest(j, b.objects) == HasManifest(j, old(b.objects))
    ensures Sound(j, old(b.objects)) && Safe(j, old(b.objects)) ==> Safe(j, b.objects)
    ensures var keys := Named(prefix, listing);
            && (r.Migrated? <==> |keys| <= old(b.budget) && forall k :: k in keys ==> Decodes(j, run, k))
            && (r.Migrated? ==> migrated == keys && b.budget == old(b.budget) - |keys| && LastHold(j, b.objects, keys))
    ensures r.Died? ==> b.budget == 0
    ensures r.VerifyFailed? ==> r.key in j.orig && !Holds(j, b.objects, r.key)
  {
    migrated := [];
    for i := 0 to |listing|
      invariant Intact(j, b.objects) && SamePrefix(j, old(b.objects), b.objects)
      invariant HasManifest(j, b.objects) == HasManifest(j, old(b.objects))
      invariant Sound(j, old(b.objects)) && Safe(j, old(b.objects)) ==> Sound(j, b.objects) && Safe(j, b.objects)
      invariant migrated == Named(prefix, listing[..i]) && b.budget == old(b.budget) - |migrated|
      invariant forall k :: k in migrated ==> Decodes(j, run, k)
      invariant LastHold(j, b.objects, migrated)
    {
      var key := listing[i];
      NamedStep(prefix, listing, i);
      if Rel(prefix, key) == "" { continue; }
      assert key in listing;
      NamedExactly(prefix, listing, key);
      var v := CopyOne(b, key, run, migrated, j, prefix, dir, dec);
      match v
      case Dead => return Died, migrated;
      case Mismatch => return VerifyFailed(key), migrated;
      case Good => migrated := migrated + [key];
    }
    assert listing[..|listing|] == listing;
    r := Migrated;
  }

  // --- what the deletions leave ------------------------------------------------------------------

  lemma AfterDelete(j: Job, m: map<string, Bytes>, keys: seq<string>, n: nat, refused: set<string>)
    requires SetOf(keys) == Remaining(j, m) && n <= |keys|
    requires forall i, k :: 0 <= i < k < |keys| ==> keys[i] != keys[k]
    ensures var m' := m - (SetOf(keys[..n]) - refused);
            && (refused !! SetOf(keys) ==> |Remaining(j, m')| == |keys| - n)
            && (Remaining(j, m') == {} <==> keys == [] || (n == |keys| && refused !! SetOf(keys)))
  {
    var m' := m - (SetOf(keys[..n]) - refused);
    assert Remaining(j, m') == SetOf(keys) - (SetOf(keys[..n]) - refused);
    SizeOfDistinct(keys);
    SizeOfDistinct(keys[..n]);
    FrontOf(keys, n);
    SetsLeft(SetOf(keys), SetOf(keys[..n]), refused);
  }

  lemma FrontOf(keys: seq<string>, n: nat)
    requires n <= |keys| && forall i, k :: 0 <= i < k < |keys| ==> keys[i] != keys[k]
    ensures SetOf(keys[..n]) <= SetOf(keys)
    ensures SetOf(keys[..n]) == SetOf(keys) <==> n == |keys|
    ensures SetOf(keys) == {} <==> keys == []
  {
    if n < |keys| { assert keys[n] in SetOf(keys) && keys[n] !in keys[..n]; } else { assert keys[..n] == keys; }
    if keys != [] { assert keys[0] in SetOf(keys); }
  }

  lemma SetsLeft(all: set<string>, gone: set<string>, refused: set<string>)
    requires gone <= all
    ensures refused !! all ==> |all - (gone - refused)| == |all| - |gone|
    ensures all - (gone - refused) == {} <==> all == {} || (gone == all && refused !! all)
  {
    if refused !! all { assert gone - refused == gone; }
    if all - (gone - refused) == {} {
      forall k | k in all ensures k in gone && k !in refused {
        assert k !in all - (gone - refused);
      }
    }
    if gone == all && refused !! all { assert all - (gone - refused) == {}; }
  }

  // --- a whole run -------------------------------------------------------------------------------

  /** What a run that is not skipped keeps of the objects `m0`. */
  ghost predicate RunKeeps(j: Job, run: RunSpec, m0: map<string, Bytes>, m: map<string, Bytes>) {
    var writes := Writes(j, run, Remaining(j, m0));
    && Intact(j, m)
    && (Sound(j, m0) && Safe(j, m0) ==> Safe(j, m))
    && (HasManifest(j, m) <==> HasManifest(j, m0) || writes)
    && (!writes || !Deletes(run) ==> SamePrefix(j, m0, m))
  }

  /** With every original there at its start, a run that gets as far as the manifest leaves at each
      destination one of the originals that went there. */
  ghost predicate RunVerifies(j: Job, run: RunSpec, m0: map<string, Bytes>, m: map<string, Bytes>) {
    Writes(j, run, Remaining(j, m0)) && AllPresent(j, m0) ==> EachDstHolds(j, m)
  }

  /** All that a run that is not skipped does to the objects. */
  ghost predicate RunDoes(j: Job, run: RunSpec, m0: map<string, Bytes>, m: map<string, Bytes>) {
    RunKeeps(j, run, m0, m) && RunVerifies(j, run, m0, m) && RunLeaves(j, run, m0, m)
  }

  /** And what it leaves under the prefix: nothing exactly when there was nothing or it clears all,
      and when it dies among the deletions one object for each write it lacks. */
  ghost predicate RunLeaves(j: Job, run: RunSpec, m0: map<string, Bytes>, m: map<string, Bytes>) {
    var left := Remaining(j, m0);
    && (Remaining(j, m) == {} <==> left == {} || Clears(j, run, left))
    && (Writes(j, run, left) && Deletes(run) && run.refused !! left ==>
          |Remaining(j, m)| == if run.budget > 2 * |left| then 0 else 2 * |left| + 1 - run.budget)
  }

  ghost predicate RunEnds(j: Job, run: RunSpec, m0: map<string, Bytes>, m: map<string, Bytes>, r: Outcome) {
    var left := Remaining(j, m0);
    && (r.Migrated? || r.Died? || r.VerifyFailed?)
    && (r.Migrated? <==> Writes(j, run, left) && (Deletes(run) ==> run.budget > 2 * |left|))
    && (r.VerifyFailed? ==> r.key in j.orig && !Holds(j, m, r.key))
  }

  /** The objects after the manifest and the deletions, with `budget` writes left for them. */
  ghost function Finished(j: Job, run: RunSpec, keys: seq<string>, m: map<string, Bytes>, budget: nat): map<string, Bytes> {
    if budget == 0 then m
    else
      var written := m[ManifestKey(j.dir) := run.manifest];
      if !Deletes(run) then written
      else written - (SetOf(keys[..if budget - 1 < |keys| then budget - 1 else |keys|]) - run.refused)
  }

  /** Writes the manifest, then deletes what was migrated if the flags say so. */
  method Finish(b: S3Bucket, migrated: seq<string>, run: RunSpec, ghost j: Job, dir: string) returns (r: Outcome)
    requires j.dir == dir
    modifies b
    ensures b.objects == Finished(j, run, migrated, old(b.objects), old(b.budget))
    ensures r == if old(b.budget) > 0 && (Deletes(run) ==> old(b.budget) > |migrated|) then Migrated else Died
  {
    var alive := b.Put(ManifestKey(dir), run.manifest);
    if !alive { return Died; }
    if run.apply && !run.keepRaw && migrated != [] {
      alive := b.Delete(migrated, run.refused);
    }
    r := if alive then Migrated else Died;
  }

  ghost predicate FinishKept(j: Job, run: RunSpec, keys: seq<string>, m: map<string, Bytes>, budget: nat, m': map<string, Bytes>) {
    && Intact(j, m') && (forall k :: Holds(j, m', k) == Holds(j, m, k))
    && (HasManifest(j, m') <==> HasManifest(j, m) || budget > 0)
    && (budget == 0 || !Deletes(run) ==> SamePrefix(j, m, m'))
    && (Safe(j, m) && (forall k :: k in keys ==> Holds(j, m, k)) ==> Safe(j, m'))
  }

  lemma FinishKeeps(j: Job, run: RunSpec, keys: seq<string>, m: map<string, Bytes>, budget: nat)
    requires WellFormed(j) && Intact(j, m) && SetOf(keys) == Remaining(j, m)
    ensures FinishKept(j, run, keys, m, budget, Finished(j, run, keys, m, budget))
  {
    if budget > 0 {
      var written := m[ManifestKey(j.dir) := run.manifest];
      ManifestKeeps(j, m, run.manifest);
      DstElsewhere(j, "");
      if Deletes(run) {
        var removed := SetOf(keys[..if budget - 1 < |keys| then budget - 1 else |keys|]) - run.refused;
        RemovedAreKeys(keys, if budget - 1 < |keys| then budget - 1 else |keys|, removed);
        DeleteKeeps(j, written, removed);
        if Safe(j, m) && (forall k :: k in keys ==> Holds(j, m, k)) { DeleteKeepsSafe(j, written, removed); }
      }
    }
  }

  lemma RemovedAreKeys(keys: seq<string>, n: nat, removed: set<string>)
    requires n <= |keys| && removed <= SetOf(keys[..n])
    ensures forall k :: k in removed ==> k in keys && k in SetOf(keys)
  {
    assert forall k :: k in SetOf(keys[..n]) ==> k in keys;
  }

  ghost predicate FinishLeft(j: Job, run: RunSpec, keys: seq<string>, budget: nat, m': map<string, Bytes>) {
    && (Remaining(j, m') == {} <==> keys == [] || (Deletes(run) && budget > |keys| && run.refused !! SetOf(keys)))
    && (budget > 0 && Deletes(run) && run.refused !! SetOf(keys) ==>
          |Remaining(j, m')| == if budget > |keys| then 0 else |keys| + 1 - budget)
  }

  lemma FinishLeaves(j: Job, run: RunSpec, keys: seq<string>, m: map<string, Bytes>, budget: nat)
    requires WellFormed(j) && SetOf(keys) == Remaining(j, m) && forall i, n :: 0 <= i < n < |keys| ==> keys[i] != keys[n]
    ensures FinishLeft(j, run, keys, budget, Finished(j, run, keys, m, budget))
  {
    RemainingEmpty(j, m, keys);
    if budget > 0 {
      var written := m[ManifestKey(j.dir) := run.manifest];
      DstElsewhere(j, "");
      assert Remaining(j, written) == Remaining(j, m);
      AfterDelete(j, written, keys, if budget - 1 < |keys| then budget - 1 else |keys|, run.refused);
    }
  }

  lemma RemainingEmpty(j: Job, m: map<string, Bytes>, keys: seq<string>)
    requires SetOf(keys) == Remaining(j, m)
    ensures Remaining(j, m) == {} <==> keys == []
  {
    if keys != [] { assert keys[0] in SetOf(keys); }
  }

  lemma NamedDecode(j: Job, run: RunSpec, m: map<string, Bytes>, keys: seq<string>)
    requires SetOf(keys) == Remaining(j, m)
    ensures (forall k :: k in keys ==> Decodes(j, run, k)) <==> (forall k :: k in Remaining(j, m) ==> Decodes(j, run, k))
  {
    assert forall k :: k in keys <==> k in SetOf(keys);
  }

  lemma SamePrefixRemains(j: Job, m0: map<string, Bytes>, m: map<string, Bytes>)
    requires WellFormed(j) && SamePrefix(j, m0, m)
    ensures Remaining(j, m) == Remaining(j, m0) && AllPresent(j, m) == AllPresent(j, m0)
  {
    assert forall k :: k in j.orig ==> Under(j.prefix, k);
  }

  /** The copying of a run: all of it, or the run ends there. */
  method CopyPrefix(
    b: S3Bucket, listing: seq<string>, run: RunSpec, ghost j: Job, prefix: string, dir: string, dec: Bytes -> Option<Bytes>)
    returns (r: Outcome, migrated: seq<string>)
    requires j.prefix == prefix && j.dir == dir && j.dec == dec && b.budget == run.budget
    requires WellFormed(j) && Intact(j, b.objects) && Lists(listing, prefix, b.objects)
    modifies b
    ensures r.Migrated? ==>
              && CopiedTo(j, run, migrated, old(b.objects), b.objects) && b.budget == run.budget - |migrated|
              && forall i, n :: 0 <= i < n < |migrated| ==> migrated[i] != migrated[n]
    ensures !r.Migrated? ==>
              && RunDoes(j, run, old(b.objects), b.objects)
              && RunEnds(j, run, old(b.objects), b.objects, r)
  {
    ghost var m0, keys := b.objects, Named(prefix, listing);
    NamedIsRemaining(j, m0, listing);
    NamedDecode(j, run, m0, keys);
    r, migrated := CopyAll(b, listing, run, j, prefix, dir, dec);
    SamePrefixRemains(j, m0, b.objects);
    if !r.Migrated? { StoppedRun(j, run, m0, b.objects, r); }
  }

  /** A run that is not skipped. */
  method RunPrefix(
    b: S3Bucket, listing: seq<string>, run: RunSpec, ghost j: Job, prefix: string, dir: string, dec: Bytes -> Option<Bytes>)
    returns (r: Outcome)
    requires j.prefix == prefix && j.dir == dir && j.dec == dec && b.budget == run.budget
    requires WellFormed(j) && Intact(j, b.objects) && Lists(listing, prefix, b.objects)
    modifies b
    ensures RunDoes(j, run, old(b.objects), b.objects)
    ensures RunEnds(j, run, old(b.objects), b.objects, r)
  {
    ghost var m0 := b.objects;
    var migrated;
    r, migrated := CopyPrefix(b, listing, run, j, prefix, dir, dec);
    if !r.Migrated? { return r; }
    ghost var m1, budget := b.objects, b.budget;
    r := Finish(b, migrated, run, j, dir);
    FinishedRun(j, run, migrated, m0, m1, b.objects, r);
  }

  lemma FinishedRun(
    j: Job, run: RunSpec, keys: seq<string>, m0: map<string, Bytes>, m1: map<string, Bytes>, m: map<string, Bytes>, r: Outcome)
    requires CopiedTo(j, run, keys, m0, m1) && m == Finished(j, run, keys, m1, run.budget - |keys|)
    requires forall i, n :: 0 <= i < n < |keys| ==> keys[i] != keys[n]
    requires r == if run.budget > |keys| && (Deletes(run) ==> run.budget - |keys| > |keys|) then Migrated else Died
    ensures RunDoes(j, run, m0, m) && RunEnds(j, run, m0, m, r)
  {
    FinishKeeps(j, run, keys, m1, run.budget - |keys|);
    FinishLeaves(j, run, keys, m1, run.budget - |keys|);
    FinishedKeeps(j, run, keys, m0, m1, m);
    FinishedVerifies(j, run, keys, m0, m1, m);
    FinishedLeaves(j, run, keys, m0, m1, m);
    FinishedEnds(j, run, keys, m0, m1, m, r);
  }

  /** One run over one prefix, whatever lands, whichever write is the last before a crash, and
      whether or not the first look at the manifest fails. */
  method Migrate(
    b: S3Bucket, listing: seq<string>, run: RunSpec, ghost j: Job, prefix: string, dec: Bytes -> Option<Bytes>) returns (r: Outcome)
    requires j.prefix == prefix && j.dec == dec && b.budget == run.budget
    requires Slashless(prefix) && Lists(listing, prefix, b.objects)
    requires ParseV1(prefix).Some? ==> j.dir == ParseV1(prefix).value.dir && WellFormed(j) && Intact(j, b.objects)
    modifies b
    ensures r.Unparseable? <==> ParseV1(prefix).None?
    ensures r.Skipped? <==> ParseV1(prefix).Some? && !run.headFails && HasManifest(j, old(b.objects))
    ensures r.Unparseable? || r.Skipped? ==> b.objects == old(b.objects)
    ensures !r.Unparseable? && !r.Skipped? ==>
              && RunDoes(j, run, old(b.objects), b.objects)
              && RunEnds(j, run, old(b.objects), b.objects, r)
  {
    var parsed := ParseV1(prefix);
    if parsed.None? { return Unparseable; }
    var dir := parsed.value.dir;
    if !run.headFails && ManifestKey(dir) in b.objects { return Skipped; }
    r := RunPrefix(b, listing, run, j, prefix, dir, dec);
  }

  lemma StoppedRun(j: Job, run: RunSpec, m0: map<string, Bytes>, m: map<string, Bytes>, r: Outcome)
    requires WellFormed(j) && Intact(j, m) && SamePrefix(j, m0, m) && HasManifest(j, m) == HasManifest(j, m0)
    requires Sound(j, m0) && Safe(j, m0) ==> Safe(j, m)
    requires r.Died? || (r.VerifyFailed? && r.key in j.orig && !Holds(j, m, r.key))
    requires !Writes(j, run, Remaining(j, m0))
    ensures RunDoes(j, run, m0, m) && RunEnds(j, run, m0, m, r)
  {
    SamePrefixRemains(j, m0, m);
  }

  /** The copying is done: every original that is left was copied and passed. */
  ghost predicate CopiedTo(j: Job, run: RunSpec, keys: seq<string>, m0: map<string, Bytes>, m1: map<string, Bytes>) {
    && WellFormed(j) && Intact(j, m1) && SamePrefix(j, m0, m1) && HasManifest(j, m1) == HasManifest(j, m0)
    && (Sound(j, m0) && Safe(j, m0) ==> Safe(j, m1))
    && SetOf(keys) == Remaining(j, m0) == Remaining(j, m1) && |keys| == |Remaining(j, m0)| <= run.budget
    && (forall k :: k in Remaining(j, m0) ==> Decodes(j, run, k)) && LastHold(j, m1, keys)
  }

  lemma FinishedKeeps(j: Job, run: RunSpec, keys: seq<string>, m0: map<string, Bytes>, m1: map<string, Bytes>, m: map<string, Bytes>)
    requires CopiedTo(j, run, keys, m0, m1) && FinishKept(j, run, keys, m1, run.budget - |keys|, m)
    ensures RunKeeps(j, run, m0, m)
  {
    assert forall k :: k in keys <==> k in SetOf(keys);
    KeptSafe(j, keys, m0, m1);
    if SamePrefix(j, m1, m) { SamePrefixChain(j, m0, m1, m); }
  }

  lemma FinishedVerifies(j: Job, run: RunSpec, keys: seq<string>, m0: map<string, Bytes>, m1: map<string, Bytes>, m: map<string, Bytes>)
    requires SetOf(keys) == Remaining(j, m0) && LastHold(j, m1, keys)
    requires forall k :: Holds(j, m, k) == Holds(j, m1, k)
    ensures RunVerifies(j, run, m0, m)
  {
    if AllPresent(j, m0) {
      assert forall k :: k in keys <==> k in SetOf(keys);
      LastOnesHold(j, m1, keys);
      EachDstStays(j, m1, m);
    }
  }

  lemma SamePrefixChain(j: Job, m0: map<string, Bytes>, m1: map<string, Bytes>, m: map<string, Bytes>)
    requires SamePrefix(j, m0, m1) && SamePrefix(j, m1, m)
    ensures SamePrefix(j, m0, m)
  {
  }

  lemma FinishedLeaves(j: Job, run: RunSpec, keys: seq<string>, m0: map<string, Bytes>, m1: map<string, Bytes>, m: map<string, Bytes>)
    requires CopiedTo(j, run, keys, m0, m1) && FinishLeft(j, run, keys, run.budget - |keys|, m)
    ensures RunLeaves(j, run, m0, m)
  {
    RemainingEmpty(j, m0, keys);
  }

  lemma FinishedEnds(j: Job, run: RunSpec, keys: seq<string>, m0: map<string, Bytes>, m1: map<string, Bytes>, m: map<string, Bytes>, r: Outcome)
    requires CopiedTo(j, run, keys, m0, m1)
    requires r == if run.budget > |keys| && (Deletes(run) ==> run.budget - |keys| > |keys|) then Migrated else Died
    ensures RunEnds(j, run, m0, m, r)
  {
  }

  lemma KeptSafe(j: Job, keys: seq<string>, m0: map<string, Bytes>, m1: map<string, Bytes>)
    requires LastHold(j, m1, keys) && forall k :: k in keys ==> k in j.orig
    ensures Sound(j, m0) ==> forall k :: k in keys ==> Holds(j, m1, k)
  {
    if Sound(j, m0) { CopiedHold(j, m1, keys); }
  }

  lemma CopiedHold(j: Job, m: map<string, Bytes>, keys: seq<string>)
    requires DistinctDst(j) || Compatible(j)
    requires LastHold(j, m, keys) && forall k :: k in keys ==> k in j.orig
    ensures forall k :: k in keys ==> Holds(j, m, k)
  {
    PassedIfCompatible(j, m, keys);
  }

  // --- any number of runs, each cut off anywhere ---------------------------------------------

  ghost function Originals(prefix: string, m: map<string, Bytes>): map<string, Bytes> {
    map k | k in m && Under(prefix, k) && Rel(prefix, k) != "" :: m[k]
  }

  /** The job of a prefix, as its bucket stands. */
  ghost function JobOf(prefix: string, dec: Bytes -> Option<Bytes>, m: map<string, Bytes>): Job
    requires ParseV1(prefix).Some?
  {
    Job(prefix, ParseV1(prefix).value.dir, dec, Originals(prefix, m))
  }

  method List(b: S3Bucket, prefix: string) returns (listing: seq<string>)
    ensures Lists(listing, prefix, b.objects)
  {
    listing := [];
    var left := set k | k in b.objects && Under(prefix, k);
    while left != {}
      invariant forall k :: k in left ==> k in b.objects && Under(prefix, k) && k !in listing
      invariant forall k :: k in b.objects && Under(prefix, k) ==> k in left || k in listing
      invariant forall k :: k in listing ==> k in b.objects && Under(prefix, k)
      invariant forall i, n :: 0 <= i < n < |listing| ==> listing[i] != listing[n]
    {
      var k :| k in left;
      assert forall i :: 0 <= i < |listing| ==> listing[i] in listing;
      listing, left := listing + [k], left - {k};
    }
  }

  /** None of the first `n` runs fails to look at the manifest. */
  predicate NoLookFails(runs: seq<RunSpec>, n: nat)
    requires n <= |runs|
  {
    forall i :: 0 <= i < n ==> !runs[i].headFails
  }

  ghost predicate WritesAt(j: Job, runs: seq<RunSpec>, i: int) {
    0 <= i < |runs| && Writes(j, runs[i], j.orig.Keys)
  }

  ghost predicate SomeWrites(j: Job, runs: seq<RunSpec>, n: nat) { exists i :: i < n && WritesAt(j, runs, i) }

  ghost predicate FirstWriter(j: Job, runs: seq<RunSpec>, i: int) {
    WritesAt(j, runs, i) && forall n :: n < i ==> !WritesAt(j, runs, n)
  }

  /** The first run that gets as far as the manifest also deletes everything. */
  ghost predicate FirstClears(j: Job, runs: seq<RunSpec>, n: nat) {
    exists i :: i < n && FirstWriter(j, runs, i) && Clears(j, runs[i], j.orig.Keys)
  }

  /** What the first `n` runs make of the objects `m0` a prefix began with. Nothing is missing unless
      one of them verified every original and the manifest is there, whatever looks fail and whatever
      destinations coincide. Nothing is lost while destinations differ, or while no look fails and
      equal destinations mean equal bytes. With no look failing, a manifest ends all change; the
      prefix ends empty exactly when it was, or when the first run that writes the manifest clears
      all; and once the manifest is there every original is verified exactly when equal
      destinations mean equal bytes. */
  ghost predicate RunsTo(j: Job, runs: seq<RunSpec>, n: nat, m0: map<string, Bytes>, m: map<string, Bytes>)
    requires n <= |runs|
  {
    && Intact(j, m)
    && (AllPresent(j, m) || (HasManifest(j, m) && SomeWrites(j, runs, n)))
    && (DistinctDst(j) || (Compatible(j) && NoLookFails(runs, n)) ==> Safe(j, m))
    && (NoLookFails(runs, n) && HasManifest(j, m0) ==> m == m0)
    && (NoLookFails(runs, n) && !HasManifest(j, m0) ==> FreshRunsTo(j, runs, n, m0, m))
  }

  ghost predicate FreshRunsTo(j: Job, runs: seq<RunSpec>, n: nat, m0: map<string, Bytes>, m: map<string, Bytes>) {
    && (HasManifest(j, m) <==> SomeWrites(j, runs, n))
    && (!SomeWrites(j, runs, n) ==> SamePrefix(j, m0, m))
    && (SomeWrites(j, runs, n) ==> EachDstHolds(j, m) && (AllVerified(j, m) <==> Compatible(j)))
    && (Remaining(j, m) == {} <==> j.orig.Keys == {} || FirstClears(j, runs, n))
  }

  /** One more run. */
  ghost predicate OneRun(j: Job, run: RunSpec, m1: map<string, Bytes>, m: map<string, Bytes>) {
    if !run.headFails && HasManifest(j, m1) then m == m1 else RunDoes(j, run, m1, m)
  }

  lemma OneRunSafe(j: Job, runs: seq<RunSpec>, i: nat, m0: map<string, Bytes>, m1: map<string, Bytes>, m: map<string, Bytes>)
    requires i < |runs| && RunsTo(j, runs, i, m0, m1) && OneRun(j, runs[i], m1, m)
    ensures Intact(j, m)
    ensures DistinctDst(j) || (Compatible(j) && NoLookFails(runs, i + 1)) ==> Safe(j, m)
  {
  }

  /** A run takes away the first original only if it verified every one and wrote the manifest. */
  lemma OneRunMissing(j: Job, runs: seq<RunSpec>, i: nat, m1: map<string, Bytes>, m: map<string, Bytes>)
    requires WellFormed(j) && i < |runs| && OneRun(j, runs[i], m1, m)
    ensures HasManifest(j, m1) ==> HasManifest(j, m)
    ensures AllPresent(j, m1) && !AllPresent(j, m) ==>
              WritesAt(j, runs, i) && HasManifest(j, m) && EachDstHolds(j, m) && !(!runs[i].headFails && HasManifest(j, m1))
  {
    AllRemain(j, m1);
    if SamePrefix(j, m1, m) { SamePrefixRemains(j, m1, m); }
  }

  lemma WritersGrow(j: Job, runs: seq<RunSpec>, i: nat)
    requires i < |runs|
    ensures SomeWrites(j, runs, i + 1) <==> SomeWrites(j, runs, i) || WritesAt(j, runs, i)
    ensures SomeWrites(j, runs, i) ==> (FirstClears(j, runs, i + 1) <==> FirstClears(j, runs, i))
    ensures !SomeWrites(j, runs, i) ==>
              !FirstClears(j, runs, i) && (FirstClears(j, runs, i + 1) <==> Clears(j, runs[i], j.orig.Keys))
  {
    if SomeWrites(j, runs, i) {
      var w :| w < i && WritesAt(j, runs, w);
      assert !FirstWriter(j, runs, i);
    } else {
      assert Clears(j, runs[i], j.orig.Keys) ==> FirstWriter(j, runs, i);
    }
  }

  lemma OneRunFresh(j: Job, runs: seq<RunSpec>, i: nat, m0: map<string, Bytes>, m1: map<string, Bytes>, m: map<string, Bytes>)
    requires WellFormed(j) && i < |runs| && FreshRunsTo(j, runs, i, m0, m1) && AllPresent(j, m0)
    requires !runs[i].headFails && OneRun(j, runs[i], m1, m)
    ensures FreshRunsTo(j, runs, i + 1, m0, m)
  {
    WritersGrow(j, runs, i);
    if !HasManifest(j, m1) { FirstWrite(j, runs, i, m0, m1, m); }
  }

  lemma FirstWrite(j: Job, runs: seq<RunSpec>, i: nat, m0: map<string, Bytes>, m1: map<string, Bytes>, m: map<string, Bytes>)
    requires WellFormed(j) && i < |runs| && SamePrefix(j, m0, m1) && AllPresent(j, m0) && !HasManifest(j, m1)
    requires RunDoes(j, runs[i], m1, m)
    ensures HasManifest(j, m) <==> WritesAt(j, runs, i)
    ensures !WritesAt(j, runs, i) ==> SamePrefix(j, m0, m)
    ensures WritesAt(j, runs, i) ==> EachDstHolds(j, m) && (AllVerified(j, m) <==> Compatible(j))
    ensures Remaining(j, m) == {} <==> j.orig.Keys == {} || Clears(j, runs[i], j.orig.Keys)
  {
    SamePrefixRemains(j, m0, m1);
    AllRemain(j, m1);
    if WritesAt(j, runs, i) {
      AllVerifiedExactly(j, m);
    } else {
      SamePrefixChain(j, m0, m1, m);
    }
  }

  lemma AllRemain(j: Job, m: map<string, Bytes>)
    ensures AllPresent(j, m) <==> Remaining(j, m) == j.orig.Keys
  {
  }

  lemma OneMoreRun(j: Job, runs: seq<RunSpec>, i: nat, m0: map<string, Bytes>, m1: map<string, Bytes>, m: map<string, Bytes>)
    requires WellFormed(j) && i < |runs| && AllPresent(j, m0) && RunsTo(j, runs, i, m0, m1) && OneRun(j, runs[i], m1, m)
    ensures RunsTo(j, runs, i + 1, m0, m)
  {
    OneRunSafe(j, runs, i, m0, m1, m);
    OneRunMissing(j, runs, i, m1, m);
    if NoLookFails(runs, i + 1) && !HasManifest(j, m0) { OneRunFresh(j, runs, i, m0, m1, m); }
  }

  lemma NoRunsYet(j: Job, runs: seq<RunSpec>, m0: map<string, Bytes>)
    requires Intact(j, m0) && AllPresent(j, m0)
    ensures RunsTo(j, runs, 0, m0, m0)
  {
    assert !SomeWrites(j, runs, 0);
    assert Remaining(j, m0) == j.orig.Keys;
  }

  lemma JobIsGood(prefix: string, dec: Bytes -> Option<Bytes>, m: map<string, Bytes>)
    requires Slashless(prefix) && ParseV1(prefix).Some?
    ensures var j := JobOf(prefix, dec, m);
            WellFormed(j) && Intact(j, m) && AllPresent(j, m) && Remaining(j, m) == j.orig.Keys
  {
    DirIsNotPrefix(prefix);
    DirHasNoSlash(prefix);
  }

  method OneRunOf(b: S3Bucket, prefix: string, dec: Bytes -> Option<Bytes>, run: RunSpec, ghost j: Job) returns (r: Outcome)
    requires Slashless(prefix) && ParseV1(prefix).Some? && j.prefix == prefix && j.dec == dec
    requires j.dir == ParseV1(prefix).value.dir && WellFormed(j) && Intact(j, b.objects)
    modifies b
    ensures OneRun(j, run, old(b.objects), b.objects)
    ensures run.headFails || !HasManifest(j, old(b.objects)) ==> RunEnds(j, run, old(b.objects), b.objects, r)
  {
    b.budget := run.budget;
    var listing := List(b, prefix);
    r := Migrate(b, listing, run, j, prefix, dec);
  }

  // --- what every state between runs promises ----------------------------------------------------

  /** The objects before, between and after runs. */
  ghost predicate IsTrace(j: Job, runs: seq<RunSpec>, states: seq<map<string, Bytes>>) {
    && 1 <= |states| <= |runs| + 1
    && (forall i :: 0 <= i < |states| - 1 ==> OneRun(j, runs[i], states[i], states[i + 1]))
  }

  /** The `i`-th run began with every original there, had every one of them pass its check, and wrote
      the manifest. */
  ghost predicate VerifyingRun(j: Job, runs: seq<RunSpec>, states: seq<map<string, Bytes>>, i: nat) {
    && i < |runs| && i + 1 < |states|
    && AllPresent(j, states[i]) && WritesAt(j, runs, i)
    && HasManifest(j, states[i + 1]) && EachDstHolds(j, states[i + 1])
  }

  ghost predicate VerifiedBefore(j: Job, runs: seq<RunSpec>, states: seq<map<string, Bytes>>, n: nat) {
    exists i: nat :: i < n && VerifyingRun(j, runs, states, i)
  }

  /** Whatever looks fail and whatever destinations coincide: no original is missing after `n` runs
      unless one of them verified every original, having found them all there, and the manifest
      is there. */
  lemma {:induction false} MissingMeansVerified(j: Job, runs: seq<RunSpec>, states: seq<map<string, Bytes>>, n: nat)
    requires WellFormed(j) && IsTrace(j, runs, states) && n < |states| && AllPresent(j, states[0])
    ensures AllPresent(j, states[n]) || (HasManifest(j, states[n]) && VerifiedBefore(j, runs, states, n))
  {
    if n > 0 {
      MissingMeansVerified(j, runs, states, n - 1);
      OneRunMissing(j, runs, n - 1, states[n - 1], states[n]);
      if AllPresent(j, states[n - 1]) && !AllPresent(j, states[n]) {
        assert VerifyingRun(j, runs, states, n - 1);
      }
    }
  }

  lemma TraceStep(
    j: Job, runs: seq<RunSpec>, states: seq<map<string, Bytes>>, i: nat, m0: map<string, Bytes>, m1: map<string, Bytes>,
    m: map<string, Bytes>)
    requires WellFormed(j) && IsTrace(j, runs, states) && i + 1 < |states| && m1 == states[i] && m == states[i + 1]
    requires AllPresent(j, m0) && RunsTo(j, runs, i, m0, m1)
    ensures RunsTo(j, runs, i + 1, m0, m)
  {
    TraceHas(j, runs, states, i);
    OneMoreRun(j, runs, i, m0, m1, m);
  }

  lemma TraceHas(j: Job, runs: seq<RunSpec>, states: seq<map<string, Bytes>>, i: nat)
    requires IsTrace(j, runs, states) && i + 1 < |states|
    ensures OneRun(j, runs[i], states[i], states[i + 1])
  {
  }

  lemma {:induction false} TraceRunsTo(j: Job, runs: seq<RunSpec>, states: seq<map<string, Bytes>>, n: nat)
    requires WellFormed(j) && IsTrace(j, runs, states) && n < |states|
    requires Intact(j, states[0]) && AllPresent(j, states[0])
    ensures RunsTo(j, runs, n, states[0], states[n])
  {
    if n == 0 {
      NoRunsYet(j, runs, states[0]);
    } else {
      TraceRunsTo(j, runs, states, n - 1);
      TraceStep(j, runs, states, n - 1, states[0], states[n - 1], states[n]);
    }
  }

  ghost predicate Recoverable(j: Job, m: map<string, Bytes>, k: string) {
    k in j.orig && ((k in m && m[k] == j.orig[k]) || Holds(j, m, k))
  }

  /** What becomes of one original over any runs, wherever each is cut off: its bytes are under its
      old key or decode from its new one, and if the old key is gone, some run before verified every
      original and the manifest is there. */
  lemma OriginalSurvives(j: Job, runs: seq<RunSpec>, states: seq<map<string, Bytes>>, n: nat, k: string)
    requires WellFormed(j) && IsTrace(j, runs, states) && n < |states|
    requires Intact(j, states[0]) && AllPresent(j, states[0]) && k in j.orig
    ensures DistinctDst(j) || (Compatible(j) && NoLookFails(runs, n)) ==> Recoverable(j, states[n], k)
    ensures k !in states[n] ==> HasManifest(j, states[n]) && VerifiedBefore(j, runs, states, n)
  {
    TraceRunsTo(j, runs, states, n);
    MissingMeansVerified(j, runs, states, n);
  }

  lemma OneRunIntact(j: Job, run: RunSpec, m1: map<string, Bytes>, m: map<string, Bytes>)
    requires Intact(j, m1) && OneRun(j, run, m1, m)
    ensures Intact(j, m)
  {
  }

  lemma TraceGrows(j: Job, runs: seq<RunSpec>, states: seq<map<string, Bytes>>, m: map<string, Bytes>)
    requires IsTrace(j, runs, states) && |states| <= |runs| && OneRun(j, runs[|states| - 1], states[|states| - 1], m)
    ensures IsTrace(j, runs, states + [m])
  {
    var n := |states| - 1;
    forall i | 0 <= i < |states| ensures OneRun(j, runs[i], (states + [m])[i], (states + [m])[i + 1]) {
      if i < n { assert OneRun(j, runs[i], states[i], states[i + 1]); }
    }
  }

  /** The runs one after the other; `states` are the objects before, between and after them. */
  method DoRuns(b: S3Bucket, prefix: string, dec: Bytes -> Option<Bytes>, runs: seq<RunSpec>, ghost j: Job)
    returns (ghost states: seq<map<string, Bytes>>)
    requires Slashless(prefix) && ParseV1(prefix).Some? && j.prefix == prefix && j.dec == dec
    requires j.dir == ParseV1(prefix).value.dir && WellFormed(j) && Intact(j, b.objects)
    modifies b
    ensures |states| == |runs| + 1 && states[0] == old(b.objects) && states[|runs|] == b.objects
    ensures IsTrace(j, runs, states)
  {
    states := [b.objects];
    for i := 0 to |runs|
      invariant |states| == i + 1 && states[0] == old(b.objects) && states[i] == b.objects
      invariant IsTrace(j, runs, states) && Intact(j, b.objects)
    {
      ghost var m1 := b.objects;
      var r := OneRunOf(b, prefix, dec, runs[i], j);
      OneRunIntact(j, runs[i], m1, b.objects);
      TraceGrows(j, runs, states, b.objects);
      states := states + [b.objects];
    }
  }

  /** Any runs over one prefix, each cut off at any write. */
  method RunAll(b: S3Bucket, prefix: string, dec: Bytes -> Option<Bytes>, runs: seq<RunSpec>)
    returns (ghost states: seq<map<string, Bytes>>)
    requires Slashless(prefix) && ParseV1(prefix).Some?
    modifies b
    ensures |states| == |runs| + 1 && states[0] == old(b.objects) && states[|runs|] == b.objects
    ensures IsTrace(JobOf(prefix, dec, old(b.objects)), runs, states)
    ensures RunsTo(JobOf(prefix, dec, old(b.objects)), runs, |runs|, old(b.objects), b.objects)
  {
    ghost var j := JobOf(prefix, dec, b.objects);
    JobIsGood(prefix, dec, b.objects);
    states := DoRuns(b, prefix, dec, runs, j);
    TraceRunsTo(j, runs, states, |runs|);
  }

  /** A run that dies between two deletions, and whatever follows it without a failing look: it
      leaves one original for each write it lacked, and no later run removes any. */
  method CutOffBetweenDeletes(b: S3Bucket, prefix: string, dec: Bytes -> Option<Bytes>, run: RunSpec, later: seq<RunSpec>)
    requires Slashless(prefix) && ParseV1(prefix).Some?
    requires var j := JobOf(prefix, dec, b.objects); var n := |j.orig.Keys|;
             && !HasManifest(j, b.objects) && (forall k :: k in j.orig ==> Decodes(j, run, k))
             && Deletes(run) && run.refused !! j.orig.Keys && n + 2 <= run.budget <= 2 * n
    requires NoLookFails(later, |later|)
    modifies b
    ensures var j := JobOf(prefix, dec, old(b.objects)); var n := |j.orig.Keys|;
            && HasManifest(j, b.objects)
            && 0 < |Remaining(j, b.objects)| == 2 * n + 1 - run.budget < n
  {
    ghost var m0, j := b.objects, JobOf(prefix, dec, b.objects);
    JobIsGood(prefix, dec, m0);
    var r := OneRunOf(b, prefix, dec, run, j);
    ghost var m1 := b.objects;
    CutOffLeaves(j, run, m0, m1);
    ghost var states := RunAll(b, prefix, dec, later);
    StaysAsItIs(JobOf(prefix, dec, m1), later, m1, b.objects);
  }

  lemma CutOffLeaves(j: Job, run: RunSpec, m0: map<string, Bytes>, m: map<string, Bytes>)
    requires OneRun(j, run, m0, m) && !HasManifest(j, m0) && Remaining(j, m0) == j.orig.Keys
    requires (forall k :: k in j.orig ==> Decodes(j, run, k)) && Deletes(run) && run.refused !! j.orig.Keys
    requires |j.orig.Keys| + 2 <= run.budget <= 2 * |j.orig.Keys|
    ensures HasManifest(j, m) && 0 < |Remaining(j, m)| == 2 * |j.orig.Keys| + 1 - run.budget < |j.orig.Keys|
  {
  }

  lemma StaysAsItIs(j: Job, runs: seq<RunSpec>, m0: map<string, Bytes>, m: map<string, Bytes>)
    requires NoLookFails(runs, |runs|) && HasManifest(j, m0) && RunsTo(j, runs, |runs|, m0, m)
    ensures m == m0
  {
  }

  lemma SharedAfter(j: Job, run: RunSpec, m0: map<string, Bytes>, m: map<string, Bytes>, k: string, k': string)
    requires k in j.orig && k' in j.orig && DstOf(j, k) == DstOf(j, k') && Remaining(j, m0) == j.orig.Keys
    requires forall l :: l in j.orig && DstOf(j, l) == DstOf(j, k) ==> l == k || l == k'
    requires RunVerifies(j, run, m0, m) && RunLeaves(j, run, m0, m) && Clears(j, run, j.orig.Keys)
    ensures k !in m && k' !in m && (Holds(j, m, k) && Holds(j, m, k') <==> j.orig[k] == j.orig[k'])
  {
    AllRemain(j, m0);
    SharedDestination(j, m, k, k');
    assert k !in Remaining(j, m) && k' !in Remaining(j, m);
  }

  /** Only a run whose look at the manifest fails can take what an earlier one left: it copies again
      what is there, and empties the prefix exactly when it clears that. */
  lemma FailedLookClears(j: Job, run: RunSpec, m1: map<string, Bytes>, m: map<string, Bytes>)
    requires OneRun(j, run, m1, m) && HasManifest(j, m1) && Remaining(j, m1) != {}
    ensures Remaining(j, m) == {} <==> run.headFails && Clears(j, run, Remaining(j, m1))
    ensures !run.headFails ==> m == m1
  {
  }

  /** A completed run that deletes, over two originals that share a destination with no other:
      both are gone from the prefix, each passed its own check, and both can be had back exactly
      when their bytes are equal. */
  method MigrateShared(b: S3Bucket, prefix: string, dec: Bytes -> Option<Bytes>, run: RunSpec, k: string, k': string)
    returns (r: Outcome)
    requires Slashless(prefix) && ParseV1(prefix).Some?
    requires var j := JobOf(prefix, dec, b.objects);
             && k in j.orig && k' in j.orig && k != k' && DstOf(j, k) == DstOf(j, k')
             && (forall l :: l in j.orig && DstOf(j, l) == DstOf(j, k) ==> l == k || l == k')
             && !HasManifest(j, b.objects) && Clears(j, run, j.orig.Keys)
    modifies b
    ensures var j := JobOf(prefix, dec, old(b.objects));
            && r.Migrated? && k !in b.objects && k' !in b.objects
            && (Holds(j, b.objects, k) && Holds(j, b.objects, k') <==> j.orig[k] == j.orig[k'])
  {
    ghost var m0, j := b.objects, JobOf(prefix, dec, b.objects);
    JobIsGood(prefix, dec, m0);
    r := OneRunOf(b, prefix, dec, run, j);
    ClearingRunEnds(j, run, m0, b.objects, r);
    SharedAfter(j, run, m0, b.objects, k, k');
  }

  lemma ClearingRunEnds(j: Job, run: RunSpec, m0: map<string, Bytes>, m: map<string, Bytes>, r: Outcome)
    requires RunEnds(j, run, m0, m, r) && Remaining(j, m0) == j.orig.Keys && Clears(j, run, j.orig.Keys)
    ensures r.Migrated?
  {
  }

  // --- an honest run ------------------------------------------------------------------------------

  /** What lands is honest: IR as it is, anything else as bytes that decompress to it. */
  ghost predicate Honest(j: Job, run: RunSpec) {
    forall k :: k in j.orig ==>
      if "ir/" <= Rel(j.prefix, k) then run.lands(k) == j.orig[k] else j.dec(run.lands(k)) == Some(j.orig[k])
  }

  lemma HonestDecodes(j: Job, run: RunSpec)
    requires Honest(j, run)
    ensures forall k :: k in j.orig ==> Decodes(j, run, k)
  {
    forall k | k in j.orig ensures Decodes(j, run, k) { KindIsByPrefix(Rel(j.prefix, k)); }
  }

  /** The copy of an original, in bytes, at the key its relative name gives it. */
  ghost predicate StoredAs(j: Job, m: map<string, Bytes>, k: string, bytes: Bytes) {
    var rel := Rel(j.prefix, k);
    if "ir/" <= rel then
      var key := j.dir + "/" + rel;
      key in m && m[key] == bytes
    else
      var key := if rel == "assemblage_meta.json" then j.dir + "/metadata/" + "assemblage_meta.json" + ".zst"
                 else j.dir + "/binaries/" + BaseName(rel) + ".zst";
      key in m && j.dec(m[key]) == Some(bytes)
  }

  lemma HoldsInBytes(j: Job, m: map<string, Bytes>, k: string)
    requires k in j.orig
    ensures Holds(j, m, k) <==> StoredAs(j, m, k, j.orig[k])
  {
    KindIsByPrefix(Rel(j.prefix, k));
    DstKeys(j.dir, Rel(j.prefix, k));
  }

  /** An honest run that lives long enough and deletes: it ends migrated, the prefix is empty, and each
      original is the stored object for IR and its decompression for anything else. */
  method HonestRun(b: S3Bucket, prefix: string, dec: Bytes -> Option<Bytes>, run: RunSpec) returns (r: Outcome)
    requires Slashless(prefix) && ParseV1(prefix).Some?
    requires var j := JobOf(prefix, dec, b.objects);
             && !HasManifest(j, b.objects) && DistinctDst(j) && Honest(j, run)
             && run.apply && !run.keepRaw && run.refused == {} && run.budget > 2 * |j.orig.Keys|
    modifies b
    ensures var j := JobOf(prefix, dec, old(b.objects));
            && r == Migrated && j.dir + "/" + "export.json" in b.objects
            && (forall k :: k in j.orig ==> k !in b.objects && StoredAs(j, b.objects, k, j.orig[k]))
  {
    ghost var m0, j := b.objects, JobOf(prefix, dec, b.objects);
    JobIsGood(prefix, dec, m0);
    HonestDecodes(j, run);
    r := OneRunOf(b, prefix, dec, run, j);
    ClearingRunEnds(j, run, m0, b.objects, r);
    HonestLeaves(j, run, m0, b.objects);
  }

  lemma HonestLeaves(j: Job, run: RunSpec, m0: map<string, Bytes>, m: map<string, Bytes>)
    requires Remaining(j, m0) == j.orig.Keys && DistinctDst(j) && Clears(j, run, j.orig.Keys)
    requires RunKeeps(j, run, m0, m) && RunVerifies(j, run, m0, m) && RunLeaves(j, run, m0, m)
    ensures j.dir + "/" + "export.json" in m
    ensures forall k :: k in j.orig ==> k !in m && StoredAs(j, m, k, j.orig[k])
  {
    DstKeys(j.dir, "");
    AllRemain(j, m0);
    AllVerifiedExactly(j, m);
    forall k | k in j.orig ensures k !in m && StoredAs(j, m, k, j.orig[k]) {
      assert k !in Remaining(j, m);
      HoldsInBytes(j, m, k);
    }
  }
}
