/** Write-once artifacts: the manifest and its canonical form, the readback check, and finalization. */
module ArtifactStore {
  import opened Wrappers
  import opened StableSort
  import opened TextOrder

  // ----- the manifest --------------------------------------------------------------------------

  /** A relative path, its last component apart. */
  datatype RelPath = RelPath(dir: string, name: string)

  datatype Entry = Entry(id: string, path: RelPath, sha: string, size: nat, producer: string, revision: string)

  datatype Mode = Quick | Standard | Deep | Targeted | Archive

  datatype Manifest = Manifest(recordId: string, revision: string, mode: Mode, entries: seq<Entry>)

  /** What is serialized and hashed. */
  datatype Canonical = Canonical(recordId: string, revision: string, mode: Mode, retainSource: bool, entries: seq<Entry>)

  predicate DistinctIds(entries: seq<Entry>) {
    forall i, j | 0 <= i < j < |entries| :: entries[i].id != entries[j].id
  }

  predicate DistinctPaths(entries: seq<Entry>) {
    forall i, j | 0 <= i < j < |entries| :: entries[i].path != entries[j].path
  }

  predicate WellFormed(m: Manifest) {
    DistinctIds(m.entries) && DistinctPaths(m.entries)
  }

  predicate IdLe(a: Entry, b: Entry) {
    TextLe(a.id, b.id)
  }

  function CanonicalForm(m: Manifest): Canonical {
    Canonical(m.recordId, m.revision, m.mode, m.mode == Archive, Sorted(m.entries, IdLe))
  }

  lemma IdLeIsTotal()
    ensures TotalPreorder(IdLe)
  {
    forall a: Entry, b: Entry
      ensures IdLe(a, b) || IdLe(b, a)
    {
      TextLeTotal(a.id, b.id);
    }
    forall a: Entry, b: Entry, c: Entry | IdLe(a, b) && IdLe(b, c)
      ensures IdLe(a, c)
    {
      TextLeTransitive(a.id, b.id, c.id);
    }
  }

  /** The canonical form, and so the hash, depends on the entries as a collection only: two manifests
      have the same form exactly when headers agree and one's entries rearrange the other's. */
  lemma CanonicalIffRearranged(a: Manifest, b: Manifest)
    requires DistinctIds(a.entries)
    ensures CanonicalForm(a) == CanonicalForm(b)
            <==> a.recordId == b.recordId && a.revision == b.revision && a.mode == b.mode
                 && multiset(a.entries) == multiset(b.entries)
    ensures CanonicalForm(a).retainSource <==> a.mode == Archive
  {
    var sa, sb := Sorted(a.entries, IdLe), Sorted(b.entries, IdLe);
    SortedMultiset(a.entries, IdLe);
    SortedMultiset(b.entries, IdLe);
    if multiset(a.entries) == multiset(b.entries) {
      IdLeIsTotal();
      SortedSorts(a.entries, IdLe);
      SortedSorts(b.entries, IdLe);
      SortedKeeps(a.entries, IdLe);
      forall x, y | x in sa && y in sa && IdLe(x, y) && IdLe(y, x)
        ensures x == y
      {
        TextLeTotal(x.id, y.id);
        var i :| 0 <= i < |a.entries| && a.entries[i] == x;
        var j :| 0 <= j < |a.entries| && a.entries[j] == y;
        assert i == j;
      }
      SortedUnique(sa, sb, IdLe);
    }
  }

  // ----- readback ------------------------------------------------------------------------------

  type Inventory = map<RelPath, (string, nat)>

  datatype Verification = Verification(verified: bool, entryCount: nat, missing: nat, mismatched: nat, unexpected: nat)

  function Paths(entries: seq<Entry>): set<RelPath> {
    set e | e in entries :: e.path
  }

  predicate Mismatch(e: Entry, inventory: Inventory) {
    e.path in inventory && inventory[e.path] != (e.sha, e.size)
  }

  function Mismatches(entries: seq<Entry>, inventory: Inventory): nat {
    if entries == [] then 0
    else (if Mismatch(entries[0], inventory) then 1 else 0) + Mismatches(entries[1..], inventory)
  }

  method CountMismatches(entries: seq<Entry>, inventory: Inventory) returns (mismatched: nat)
    ensures mismatched == Mismatches(entries, inventory)
  {
    mismatched := 0;
    var i := 0;
    while i < |entries|
      invariant 0 <= i <= |entries|
      invariant Mismatches(entries, inventory) == mismatched + Mismatches(entries[i..], inventory)
    {
      var entry := entries[i];
      assert entries[i..][0] == entry && entries[i..][1..] == entries[i + 1..];
      if entry.path in inventory {
        var (sha, size) := inventory[entry.path];
        if sha != entry.sha || size != entry.size {
          mismatched := mismatched + 1;
        }
      }
      i := i + 1;
    }
  }

  lemma NoDifference(a: set<RelPath>, b: set<RelPath>)
    ensures a - b == {} && b - a == {} <==> a == b
  {
    if a - b == {} && b - a == {} {
      forall p
        ensures p in a <==> p in b
      {
        assert p !in a - b && p !in b - a;
      }
    }
  }

  method VerifyInventory(m: Manifest, inventory: Inventory) returns (v: Verification)
    ensures v.missing == |Paths(m.entries) - inventory.Keys| && v.unexpected == |inventory.Keys - Paths(m.entries)|
    ensures v.mismatched == Mismatches(m.entries, inventory) && v.entryCount == |m.entries|
    ensures v.verified <==> Agrees(m.entries, inventory)
  {
    var missing, unexpected := Paths(m.entries) - inventory.Keys, inventory.Keys - Paths(m.entries);
    var mismatched := CountMismatches(m.entries, inventory);
    v := Verification(missing == {} && unexpected == {} && mismatched == 0, |m.entries|, |missing|, mismatched, |unexpected|);
    NoMismatch(m.entries, inventory);
    NoDifference(Paths(m.entries), inventory.Keys);
  }

  /** The observed files are exactly the listed ones, with the listed hashes and sizes. */
  predicate Agrees(entries: seq<Entry>, inventory: Inventory) {
    inventory.Keys == Paths(entries) && forall e | e in entries :: !Mismatch(e, inventory)
  }

  lemma {:induction false} NoMismatch(entries: seq<Entry>, inventory: Inventory)
    ensures Mismatches(entries, inventory) == 0 <==> forall e | e in entries :: !Mismatch(e, inventory)
  {
    if entries != [] {
      NoMismatch(entries[1..], inventory);
      assert forall e :: e in entries <==> e == entries[0] || e in entries[1..];
    }
  }

  /** The inventory a manifest describes. */
  function Described(entries: seq<Entry>): Inventory {
    if entries == [] then map[] else Described(entries[1..])[entries[0].path := (entries[0].sha, entries[0].size)]
  }

  lemma {:induction false} DescribedAt(entries: seq<Entry>)
    requires DistinctPaths(entries)
    ensures Described(entries).Keys == Paths(entries)
    ensures forall e | e in entries :: Described(entries)[e.path] == (e.sha, e.size)
  {
    if entries != [] {
      DescribedAt(entries[1..]);
      assert forall e :: e in entries <==> e == entries[0] || e in entries[1..];
      assert Paths(entries) == Paths(entries[1..]) + {entries[0].path};
      forall e | e in entries[1..]
        ensures e.path != entries[0].path
      {
        var i :| 0 <= i < |entries[1..]| && entries[1..][i] == e;
        assert entries[i + 1] == e;
      }
    }
  }

  /** With distinct paths, agreement is equality of the two maps. */
  lemma AgreesIffEqual(entries: seq<Entry>, inventory: Inventory)
    requires DistinctPaths(entries)
    ensures Agrees(entries, inventory) <==> inventory == Described(entries)
  {
    DescribedAt(entries);
    if Agrees(entries, inventory) {
      forall p | p in inventory
        ensures inventory[p] == Described(entries)[p]
      {
        var e :| e in entries && e.path == p;
        assert !Mismatch(e, inventory);
      }
    }
  }

  // ----- finalization --------------------------------------------------------------------------

  /** A file by its content hash and size; symbolic links are only ever rejected. */
  datatype File = File(sha: string, size: nat, link: bool)

  type Tree = map<RelPath, File>

  /** A promoted directory: its files beside the manifest, and the hash its manifest file holds. */
  datatype Stored = Stored(files: Tree, manifestHash: string)

  datatype StoreError =
    | SymlinkRejected | SetEmpty | DuplicateIdentity | ManifestBusy | RevisionConflict | ReadbackFailed
    | ManifestReadbackFailed

  datatype Outcome = Finalized(manifestHash: string, entryCount: nat, replay: bool) | Failed(error: StoreError)

  /** SHA-256 twice: the id of a path and the digest of a canonical form. */
  datatype Hashes = Hashes(pathId: RelPath -> string, digest: Canonical -> string)

  predicate IsPart(p: RelPath) {
    |p.name| >= 5 && p.name[|p.name| - 5..] == ".part"
  }

  predicate IsManifest(p: RelPath) {
    p.name == "manifest.json"
  }

  /** The files the manifest lists. */
  predicate IsListed(p: RelPath) {
    !IsManifest(p) && !IsPart(p)
  }

  predicate HasLink(files: Tree) {
    exists p | p in files :: files[p].link
  }

  function EntryOf(p: RelPath, f: File, revision: string, producer: string, hashes: Hashes): Entry {
    Entry(hashes.pathId(p), p, f.sha, f.size, producer, revision)
  }

  /** `entries` lists every file of the tree that counts, once. */
  predicate Lists(entries: seq<Entry>, files: Tree, revision: string, producer: string, hashes: Hashes) {
    && DistinctPaths(entries)
    && (forall e | e in entries ::
          e.path in files && IsListed(e.path) && e == EntryOf(e.path, files[e.path], revision, producer, hashes))
    && (forall p | p in files && IsListed(p) :: EntryOf(p, files[p], revision, producer, hashes) in entries)
  }

  /** What the readback of a target sees: everything but the manifest file. */
  function ReadBack(files: Tree): Inventory {
    map p | p in files && !IsManifest(p) :: (files[p].sha, files[p].size)
  }

  method Inventoried(files: Tree, revision: string, producer: string, hashes: Hashes) returns (entries: seq<Entry>)
    ensures Lists(entries, files, revision, producer, hashes)
  {
    entries := [];
    var rest := files.Keys;
    while rest != {}
      invariant rest <= files.Keys && DistinctPaths(entries)
      invariant forall e | e in entries ::
                  e.path in files.Keys - rest && IsListed(e.path)
                  && e == EntryOf(e.path, files[e.path], revision, producer, hashes)
      invariant forall p | p in files.Keys - rest && IsListed(p) ::
                  EntryOf(p, files[p], revision, producer, hashes) in entries
      decreases |rest|
    {
      var p :| p in rest;
      rest := rest - {p};
      if IsListed(p) {
        Fresh(entries, p);
        entries := entries + [EntryOf(p, files[p], revision, producer, hashes)];
      }
    }
  }

  lemma Fresh(entries: seq<Entry>, p: RelPath)
    requires forall e | e in entries :: e.path != p
    ensures forall i | 0 <= i < |entries| :: entries[i].path != p
  {
    forall i | 0 <= i < |entries|
      ensures entries[i].path != p
    {
      assert entries[i] in entries;
    }
  }

  /** All listings of one tree are rearrangements of each other. */
  lemma ListingsRearrange(a: seq<Entry>, b: seq<Entry>, files: Tree, revision: string, producer: string, hashes: Hashes)
    requires Lists(a, files, revision, producer, hashes) && Lists(b, files, revision, producer, hashes)
    ensures multiset(a) == multiset(b)
  {
    forall e
      ensures multiset(a)[e] == multiset(b)[e]
    {
      Once(a, e);
      Once(b, e);
    }
  }

  predicate HasPart(files: Tree) {
    exists p | p in files :: IsPart(p) && !IsManifest(p)
  }

  /** A listing agrees with what is read back exactly when no partial file is left over. */
  lemma ReadBackIffNoPart(entries: seq<Entry>, files: Tree, revision: string, producer: string, hashes: Hashes)
    requires Lists(entries, files, revision, producer, hashes)
    ensures Agrees(entries, ReadBack(files)) <==> !HasPart(files)
  {
    var inventory := ReadBack(files);
    forall e | e in entries
      ensures e.path in inventory && !Mismatch(e, inventory)
    {
    }
    if !HasPart(files) {
      forall p
        ensures p in inventory.Keys <==> p in Paths(entries)
      {
        if p in inventory {
          assert !(IsPart(p) && !IsManifest(p));
          assert EntryOf(p, files[p], revision, producer, hashes) in entries;
        }
      }
    } else {
      var p :| p in files && IsPart(p) && !IsManifest(p);
      assert p in inventory.Keys && p !in Paths(entries);
    }
  }

  type Key = (string, string)

  type Targets = map<Key, Stored>

  datatype Request = Request(workspace: Tree, recordId: string, revision: string, mode: Mode, producer: string)

  function KeyOf(r: Request): Key {
    (r.recordId, r.revision)
  }

  function ManifestOf(r: Request, entries: seq<Entry>): Manifest {
    Manifest(r.recordId, r.revision, r.mode, entries)
  }

  const MANIFEST_FILE := RelPath("", "manifest.json")
  const MANIFEST_PART := RelPath("", "manifest.json.part")

  /** The workspace once its manifest file is written. */
  function Promoted(workspace: Tree, hash: string): Stored {
    Stored(workspace[MANIFEST_FILE := File(hash, 0, false)], hash)
  }

  function DigestOf(m: Manifest, hashes: Hashes): string {
    hashes.digest(CanonicalForm(m))
  }

  function Verified(target: Stored, m: Manifest, hashes: Hashes): Option<StoreError> {
    if HasLink(target.files) then Some(SymlinkRejected)
    else if !Agrees(m.entries, ReadBack(target.files)) then Some(ReadbackFailed)
    else if target.manifestHash != DigestOf(m, hashes) then Some(ManifestReadbackFailed)
    else None
  }

  /** One call, for a given listing of the workspace. */
  function Finalization(targets: Targets, r: Request, entries: seq<Entry>, hashes: Hashes): (Targets, Outcome) {
    if HasLink(r.workspace) then (targets, Failed(SymlinkRejected))
    else if entries == [] then (targets, Failed(SetEmpty))
    else if !WellFormed(ManifestOf(r, entries)) then (targets, Failed(DuplicateIdentity))
    else if MANIFEST_PART in r.workspace then (targets, Failed(ManifestBusy))
    else
      var hash := DigestOf(ManifestOf(r, entries), hashes);
      if KeyOf(r) in targets then
        if targets[KeyOf(r)].manifestHash != hash then (targets, Failed(RevisionConflict))
        else match Verified(targets[KeyOf(r)], ManifestOf(r, entries), hashes)
          case Some(e) => (targets, Failed(e))
          case None => (targets, Finalized(hash, |entries|, true))
      else
        var target := Promoted(r.workspace, hash);
        match Verified(target, ManifestOf(r, entries), hashes)
        case Some(e) => (targets[KeyOf(r) := target], Failed(e))
        case None => (targets[KeyOf(r) := target], Finalized(hash, |entries|, false))
  }

  class PrivateArtifactStore {
    const hashes: Hashes
    var targets: Targets

    constructor (hashes: Hashes)
      ensures this.hashes == hashes && targets == map[]
    {
      this.hashes, targets := hashes, map[];
    }

    method Finalize(r: Request) returns (outcome: Outcome, ghost entries: seq<Entry>)
      modifies this
      ensures Lists(entries, r.workspace, r.revision, r.producer, hashes)
      ensures (targets, outcome) == Finalization(old(targets), r, entries, hashes)
    {
      var listed := Inventoried(r.workspace, r.revision, r.producer, hashes);
      entries := listed;
      if HasLink(r.workspace) {
        return Failed(SymlinkRejected), entries;
      }
      if listed == [] {
        return Failed(SetEmpty), entries;
      }
      var manifest := ManifestOf(r, listed);
      if !WellFormed(manifest) {
        return Failed(DuplicateIdentity), entries;
      }
      var hash := DigestOf(manifest, hashes);
      if MANIFEST_PART in r.workspace {
        return Failed(ManifestBusy), entries;
      }
      if KeyOf(r) in targets {
        if targets[KeyOf(r)].manifestHash != hash {
          return Failed(RevisionConflict), entries;
        }
        var e := VerifyTarget(targets[KeyOf(r)], manifest);
        return if e.Some? then Failed(e.value) else Finalized(hash, |listed|, true), entries;
      }
      targets := targets[KeyOf(r) := Promoted(r.workspace, hash)];
      var e := VerifyTarget(targets[KeyOf(r)], manifest);
      return if e.Some? then Failed(e.value) else Finalized(hash, |listed|, false), entries;
    }

    method VerifyTarget(target: Stored, manifest: Manifest) returns (e: Option<StoreError>)
      ensures e == Verified(target, manifest, hashes)
    {
      if HasLink(target.files) {
        return Some(SymlinkRejected);
      }
      var v := VerifyInventory(manifest, ReadBack(target.files));
      if !v.verified {
        return Some(ReadbackFailed);
      }
      return if target.manifestHash != DigestOf(manifest, hashes) then Some(ManifestReadbackFailed) else None;
    }
  }

  // ----- write once ------------------------------------------------------------------------------

  datatype Call = Call(request: Request, entries: seq<Entry>)

  function TargetsAfter(targets: Targets, calls: seq<Call>, hashes: Hashes): Targets
    decreases |calls|
  {
    if calls == [] then targets
    else TargetsAfter(Finalization(targets, calls[0].request, calls[0].entries, hashes).0, calls[1..], hashes)
  }

  /** Over any run of finalizations a promoted target is never changed or removed. */
  lemma {:induction false} TargetsAreWriteOnce(targets: Targets, calls: seq<Call>, hashes: Hashes, key: Key)
    requires key in targets
    ensures key in TargetsAfter(targets, calls, hashes)
         && TargetsAfter(targets, calls, hashes)[key] == targets[key]
    decreases |calls|
  {
    if calls != [] {
      TargetsAreWriteOnce(Finalization(targets, calls[0].request, calls[0].entries, hashes).0, calls[1..], hashes, key);
    }
  }

  /** The order in which the workspace is listed never shows. */
  lemma ListingOrderIsIrrelevant(targets: Targets, r: Request, a: seq<Entry>, b: seq<Entry>, hashes: Hashes)
    requires Lists(a, r.workspace, r.revision, r.producer, hashes)
    requires Lists(b, r.workspace, r.revision, r.producer, hashes)
    ensures Finalization(targets, r, a, hashes) == Finalization(targets, r, b, hashes)
  {
    ListingsRearrange(a, b, r.workspace, r.revision, r.producer, hashes);
    SameMembers(a, b);
    SameDistinctIds(a, b);
    SameDistinctIds(b, a);
    SamePaths(a, b);
    if DistinctIds(a) {
      CanonicalIffRearranged(ManifestOf(r, a), ManifestOf(r, b));
    }
  }

  lemma SamePaths(a: seq<Entry>, b: seq<Entry>)
    requires forall e :: e in a <==> e in b
    ensures Paths(a) == Paths(b)
    ensures forall inventory :: Agrees(a, inventory) <==> Agrees(b, inventory)
  {
  }

  /** Distinct ids survive rearrangement when the entries themselves are distinct. */
  lemma SameDistinctIds(a: seq<Entry>, b: seq<Entry>)
    requires multiset(a) == multiset(b) && DistinctPaths(b)
    ensures DistinctIds(a) ==> DistinctIds(b)
  {
    SameMembers(a, b);
    forall i, j | 0 <= i < j < |b| && DistinctIds(a)
      ensures b[i].id != b[j].id
    {
      assert b[i] in a && b[j] in a && b[i] != b[j];
    }
  }

  /** A file that is no artifact: the manifest, or one being written. */
  predicate IsAside(p: RelPath) {
    p.name == "manifest.json" || (|p.name| >= 5 && p.name[|p.name| - 5..] == ".part")
  }

  /** Two artifacts whose paths have one id. */
  ghost predicate Collide(files: Tree, hashes: Hashes) {
    exists p, q | p in files && q in files ::
      p != q && !IsAside(p) && !IsAside(q) && hashes.pathId(p) == hashes.pathId(q)
  }

  lemma ListedFacts(entries: seq<Entry>, files: Tree, revision: string, producer: string, hashes: Hashes)
    requires Lists(entries, files, revision, producer, hashes)
    ensures entries == [] <==> forall p | p in files :: IsAside(p)
    ensures DistinctIds(entries) <==> !Collide(files, hashes)
  {
    assert forall p :: IsListed(p) <==> !IsAside(p);
    if entries != [] {
      assert entries[0] in entries;
    }
    forall p, q | p in files && q in files && p != q && !IsAside(p) && !IsAside(q) && hashes.pathId(p) == hashes.pathId(q)
      ensures !DistinctIds(entries)
    {
      var a, b := EntryOf(p, files[p], revision, producer, hashes), EntryOf(q, files[q], revision, producer, hashes);
      var i :| 0 <= i < |entries| && entries[i] == a;
      var j :| 0 <= j < |entries| && entries[j] == b;
      assert i < j || j < i;
    }
    if !DistinctIds(entries) {
      var i, j :| 0 <= i < j < |entries| && entries[i].id == entries[j].id;
      assert entries[i] in entries && entries[j] in entries && entries[i].path != entries[j].path;
      assert Collide(files, hashes);
    }
  }

  /** Which error a call ends with before anything is promoted, first come first: a symbolic link, nothing to
      store, two paths with one id, a manifest being written, other content under the revision.  None of
      them changes the store. */
  lemma EarlyErrors(targets: Targets, r: Request, entries: seq<Entry>, hashes: Hashes)
    requires Lists(entries, r.workspace, r.revision, r.producer, hashes)
    ensures var (after, outcome) := Finalization(targets, r, entries, hashes);
            var files, key := r.workspace, KeyOf(r);
            var link, nothing := exists p | p in files :: files[p].link, forall p | p in files :: IsAside(p);
            var hash := hashes.digest(CanonicalForm(ManifestOf(r, entries)));
            && (link ==> outcome == Failed(SymlinkRejected) && after == targets)
            && (!link && nothing ==> outcome == Failed(SetEmpty) && after == targets)
            && (!link && !nothing && Collide(files, hashes) ==> outcome == Failed(DuplicateIdentity) && after == targets)
            && (!link && !nothing && !Collide(files, hashes) ==>
                  && (MANIFEST_PART in files ==> outcome == Failed(ManifestBusy) && after == targets)
                  && (MANIFEST_PART !in files && key in targets ==>
                        after == targets
                        && (outcome == Failed(RevisionConflict) <==> targets[key].manifestHash != hash))
                  && (MANIFEST_PART !in files && key !in targets ==>
                        key in after && after == targets[key := after[key]] && after[key].manifestHash == hash
                        && ReadBack(after[key].files) == ReadBack(files)))
  {
    ListedFacts(entries, r.workspace, r.revision, r.producer, hashes);
    PromotedReadsBack(r.workspace, hashes.digest(CanonicalForm(ManifestOf(r, entries))));
  }

  /** A normal return means the stored files read back as listed, under the listed hash, and a replay is
      reported exactly when the target was already there. */
  lemma NormalReturnIsVerified(targets: Targets, r: Request, entries: seq<Entry>, hashes: Hashes)
    ensures var (after, outcome) := Finalization(targets, r, entries, hashes);
            outcome.Finalized? ==>
              && KeyOf(r) in after && after[KeyOf(r)].manifestHash == outcome.manifestHash
              && outcome.entryCount == |entries|
              && outcome.manifestHash == hashes.digest(CanonicalForm(ManifestOf(r, entries)))
              && ReadBack(after[KeyOf(r)].files) == Described(entries)
              && (outcome.replay <==> KeyOf(r) in targets && targets[KeyOf(r)].manifestHash == outcome.manifestHash)
  {
    var (after, outcome) := Finalization(targets, r, entries, hashes);
    if outcome.Finalized? {
      AgreesIffEqual(entries, ReadBack(after[KeyOf(r)].files));
    }
  }

  predicate Acceptable(r: Request, entries: seq<Entry>) {
    !HasLink(r.workspace) && entries != [] && DistinctIds(entries)
  }

  /** The manifest file is not read back, so writing it does not show. */
  lemma PromotedReadsBack(workspace: Tree, hash: string)
    ensures ReadBack(Promoted(workspace, hash).files) == ReadBack(workspace)
    ensures !HasLink(workspace) ==> !HasLink(Promoted(workspace, hash).files)
  {
  }

  /** A new revision is finalized exactly when its workspace holds no leftover partial file; with one
      left over (other than the manifest's own) the target is promoted but the call fails. */
  lemma FreshFinalizeIff(targets: Targets, r: Request, entries: seq<Entry>, hashes: Hashes)
    requires Lists(entries, r.workspace, r.revision, r.producer, hashes)
    requires Acceptable(r, entries) && KeyOf(r) !in targets
    ensures var (after, outcome) := Finalization(targets, r, entries, hashes);
            && (outcome.Finalized? <==> !HasPart(r.workspace))
            && (HasPart(r.workspace) && MANIFEST_PART !in r.workspace ==>
                  outcome == Failed(ReadbackFailed) && KeyOf(r) in after)
  {
    var hash := hashes.digest(CanonicalForm(ManifestOf(r, entries)));
    ReadBackIffNoPart(entries, r.workspace, r.revision, r.producer, hashes);
    PromotedReadsBack(r.workspace, hash);
    PartOfManifest(r.workspace);
  }

  lemma PartOfManifest(workspace: Tree)
    ensures MANIFEST_PART in workspace ==> HasPart(workspace)
  {
    if MANIFEST_PART in workspace {
      assert MANIFEST_PART.name[|MANIFEST_PART.name| - 5..] == ".part";
      assert IsPart(MANIFEST_PART) && !IsManifest(MANIFEST_PART);
    }
  }

  /** A target that holds a partial file is never returned: whatever is called in between, no call for its
      revision ends normally. */
  lemma SpoiledForever(targets: Targets, between: seq<Call>, r: Request, entries: seq<Entry>, hashes: Hashes)
    requires Lists(entries, r.workspace, r.revision, r.producer, hashes)
    requires KeyOf(r) in targets && HasPart(targets[KeyOf(r)].files)
    ensures Finalization(TargetsAfter(targets, between, hashes), r, entries, hashes).1.Failed?
  {
    var later, target := TargetsAfter(targets, between, hashes), targets[KeyOf(r)];
    TargetsAreWriteOnce(targets, between, hashes, KeyOf(r));
    var p :| p in target.files && IsPart(p) && !IsManifest(p);
    assert p in ReadBack(target.files) && p !in Paths(entries);
    assert !Agrees(entries, ReadBack(target.files));
  }

  /** So a leftover partial file spoils its revision for good. */
  lemma LeftoverSpoilsRevision(targets: Targets, first: Request, listed: seq<Entry>, between: seq<Call>, r: Request,
                               entries: seq<Entry>, hashes: Hashes)
    requires Lists(listed, first.workspace, first.revision, first.producer, hashes)
    requires Acceptable(first, listed) && KeyOf(first) !in targets
    requires HasPart(first.workspace) && MANIFEST_PART !in first.workspace
    requires Lists(entries, r.workspace, r.revision, r.producer, hashes) && KeyOf(r) == KeyOf(first)
    ensures var after := Finalization(targets, first, listed, hashes).0;
            Finalization(TargetsAfter(after, between, hashes), r, entries, hashes).1.Failed?
  {
    var after := Finalization(targets, first, listed, hashes).0;
    FreshFinalizeIff(targets, first, listed, hashes);
    var p :| p in first.workspace && IsPart(p) && !IsManifest(p);
    assert p in after[KeyOf(r)].files;
    SpoiledForever(after, between, r, entries, hashes);
  }

  /** Finalizing the same workspace again is a replay under the same hash, however much other revisions
      changed the store in between. */
  lemma SecondFinalizeReplays(targets: Targets, r: Request, first: seq<Entry>, second: seq<Entry>, between: seq<Call>,
                              hashes: Hashes)
    requires Lists(first, r.workspace, r.revision, r.producer, hashes)
    requires Lists(second, r.workspace, r.revision, r.producer, hashes)
    requires Finalization(targets, r, first, hashes).1.Finalized?
    ensures var (after, outcome) := Finalization(targets, r, first, hashes);
            Finalization(TargetsAfter(after, between, hashes), r, second, hashes).1 == outcome.(replay := true)
  {
    var (after, outcome) := Finalization(targets, r, first, hashes);
    var later := TargetsAfter(after, between, hashes);
    NormalReturnIsVerified(targets, r, first, hashes);
    TargetsAreWriteOnce(after, between, hashes, KeyOf(r));
    ListingOrderIsIrrelevant(later, r, first, second, hashes);
  }
}
