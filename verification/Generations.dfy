/** Workspace generations: manifests, the active pointer, lineage and reopening.

  `seals` gives the digests and the checkpoint identity check, so that the
  protocol can be followed without their preimages; `ManifestBinds` and
  `LineageBinds` say what the digests bind.
*/
module Generations {
  import opened Framing
  import opened Names
  import opened Durability
  import opened Journal
  import FT = FileTree
  import JS = JournalStore

  const SCHEMA_VERSION := 1
  const ACTIVE_FILE := "active.json"
  const GENERATIONS_DIR := "generations"
  const MANIFEST_DOMAIN: Bytes := Ascii("bullet-git-generation-manifest-v1")
  const PARENT_TAG: Bytes := Ascii("parent")
  const ROOT_TAG: Bytes := Ascii("root")

  datatype Parent = Parent(generation: Word64, digest: Digest)

  /** The attempt and workspace nonce a store belongs to. */
  datatype Identity = Identity(attempt: Buffer, nonce: Buffer)

  datatype Body = Body(id: Identity, generation: Word64, parent: Option<Parent>, checkpoint: Digest)

  datatype Manifest = Manifest(
    schema: nat, id: Identity, generation: Word64, parent: Option<Parent>, checkpoint: Checkpoint, digest: Digest)

  datatype Pointer = Pointer(schema: nat, generation: Word64, manifest: Digest, digest: Digest)

  datatype Seals = Seals(
    manifest: Body -> Digest, pointer: (Word64, Digest) -> Digest, checkpoint: Checkpoint -> bool)

  function BodyOf(m: Manifest): Body {
    Body(m.id, m.generation, m.parent, m.checkpoint.digest)
  }

  predicate ValidManifest(seals: Seals, m: Manifest) {
    && m.schema == SCHEMA_VERSION && seals.checkpoint(m.checkpoint) && m.checkpoint.gitTree.Some?
    && m.digest == seals.manifest(BodyOf(m))
  }

  function NewManifest(seals: Seals, id: Identity, generation: Word64, parent: Option<Parent>, checkpoint: Checkpoint)
    : (m: Option<Manifest>)
    ensures m.Some? ==> ValidManifest(seals, m.value)
  {
    if !seals.checkpoint(checkpoint) || checkpoint.gitTree.None? then None
    else
      var digest := seals.manifest(Body(id, generation, parent, checkpoint.digest));
      Some(Manifest(SCHEMA_VERSION, id, generation, parent, checkpoint, digest))
  }

  predicate ValidPointer(seals: Seals, p: Pointer) {
    p.schema == SCHEMA_VERSION && p.digest == seals.pointer(p.generation, p.manifest)
  }

  function PointerTo(seals: Seals, m: Manifest): (p: Pointer)
    ensures ValidPointer(seals, p)
  {
    Pointer(SCHEMA_VERSION, m.generation, m.digest, seals.pointer(m.generation, m.digest))
  }

  // ---------- what the digests bind ----------

  const ZEROS_8: Bytes := [0, 0, 0, 0, 0, 0, 0, 0]
  const ZEROS_32: Bytes := ZEROS_8 + ZEROS_8 + ZEROS_8 + ZEROS_8

  function ManifestFields(b: Body): (fields: seq<Bytes>)
    ensures Addressable(fields)
  {
    match b.parent
    case None => [MANIFEST_DOMAIN, b.id.attempt, b.id.nonce, U64(b.generation), ROOT_TAG, ZEROS_8, ZEROS_32,
      b.checkpoint]
    case Some(p) =>
      [MANIFEST_DOMAIN, b.id.attempt, b.id.nonce, U64(b.generation), PARENT_TAG, U64(p.generation), p.digest,
        b.checkpoint]
  }

  function ManifestSeal(hash: Bytes -> Digest): Body -> Digest {
    (b: Body) => FramedDigest(hash, ManifestFields(b))
  }

  /** Two bodies exhibit a digest collision. */
  ghost predicate BodiesCollide(hash: Bytes -> Digest, a: Body, b: Body) {
    Collide(hash, FrameAll(ManifestFields(a)), FrameAll(ManifestFields(b)))
  }

  /** A manifest digest binds identity, generation, parent and checkpoint. */
  lemma ManifestBinds(hash: Bytes -> Digest, a: Body, b: Body)
    requires ManifestSeal(hash)(a) == ManifestSeal(hash)(b)
    ensures a == b || BodiesCollide(hash, a, b)
  {
    var left, right := ManifestFields(a), ManifestFields(b);
    FramedDigestBinds(hash, left, right);
    if left == right {
      assert left[1] == right[1] && left[2] == right[2] && left[3] == right[3] && left[4] == right[4]
        && left[5] == right[5] && left[6] == right[6] && left[7] == right[7];
      U64Injective(a.generation, b.generation);
      assert |ROOT_TAG| != |PARENT_TAG|;
      if a.parent.Some? && b.parent.Some? {
        U64Injective(a.parent.value.generation, b.parent.value.generation);
      }
    }
  }

  // ---------- directories ----------

  /** One generation directory: its manifest, its working tree and the files of its journal;
      `None` where the part is missing or unreadable. */
  datatype Generation = Generation(
    manifest: Option<Manifest>, repo: Option<FT.RealTree>, journal: Option<map<string, JS.BatchFile>>)

  /** The work directory holds pointer files and the entry of the generations directory. */
  type WorkDir = Directory<Option<Pointer>>
  type GenerationsDir = Directory<Generation>

  datatype Volume = Volume(work: WorkDir, gens: GenerationsDir)

  function ReadManifest(gens: GenerationsDir, generation: Word64): Option<Manifest> {
    match Now(gens, GenerationName(generation))
    case Some(item) => if item.kind == Folder then item.data.manifest else None
    case None => None
  }

  function ReadPointer(work: WorkDir): Option<Pointer> {
    match Now(work, ACTIVE_FILE)
    case Some(item) => if item.kind == Regular then item.data else None
    case None => None
  }

  predicate EntryAccepted(name: string, kind: Kind) {
    kind == Folder && (IsStageName(name) || ParseGenerationName(name).Some?)
  }

  ghost predicate EntriesAccepted(gens: GenerationsDir) {
    forall name :: Now(gens, name).Some? ==> EntryAccepted(name, Now(gens, name).value.kind)
  }

  /** The kinds a listing of the directory shows. */
  function Kinds(gens: GenerationsDir): map<string, Kind> {
    map name | name in Visible(gens) :: Visible(gens)[name].kind
  }

  method InspectEntries(listing: seq<(string, Kind)>, ghost gens: GenerationsDir) returns (accepted: bool)
    requires Lists(listing, Kinds(gens))
    ensures accepted <==> EntriesAccepted(gens)
  {
    for n := 0 to |listing|
      invariant forall i :: 0 <= i < n ==> EntryAccepted(listing[i].0, listing[i].1)
    {
      if !EntryAccepted(listing[n].0, listing[n].1) {
        assert listing[n] in listing && Now(gens, listing[n].0).Some?;
        return false;
      }
    }
    forall name | Now(gens, name).Some? ensures EntryAccepted(name, Now(gens, name).value.kind) {
      assert name in Kinds(gens) && (name, Kinds(gens)[name]) in listing;
    }
    return true;
  }

  /** Generation numbers visible in a directory. */
  ghost predicate Taken(gens: GenerationsDir, generation: nat) {
    generation < TWO_TO_THE_64 && Now(gens, GenerationName(generation)).Some?
  }

  /** The number after every visible one, in whatever order entries are enumerated. */
  method NextGeneration(listing: seq<(string, Kind)>, ghost gens: GenerationsDir) returns (next: Option<nat>)
    requires Lists(listing, Kinds(gens)) && EntriesAccepted(gens)
    ensures next.Some? <==> !Taken(gens, TWO_TO_THE_64 - 1)
    ensures next.Some? ==>
      && 0 < next.value < TWO_TO_THE_64
      && (forall g: nat :: Taken(gens, g) ==> g < next.value)
      && (next.value == 1 || Taken(gens, next.value - 1))
  {
    var maximum: nat := 0;
    for n := 0 to |listing|
      invariant maximum == 0 || Taken(gens, maximum)
      invariant forall i :: 0 <= i < n && ParseGenerationName(listing[i].0).Some? ==>
        ParseGenerationName(listing[i].0).value <= maximum
    {
      var parsed := ParseGenerationName(listing[n].0);
      assert listing[n] in listing;
      if parsed.Some? {
        GenerationNameExact(listing[n].0, parsed.value);
        if parsed.value > maximum {
          maximum := parsed.value;
        }
      }
    }
    forall g: nat | Taken(gens, g) ensures g <= maximum {
      var e := (GenerationName(g), Now(gens, GenerationName(g)).value.kind);
      assert e.0 in Kinds(gens) && e in listing;
      GenerationNameExact(e.0, g);
    }
    next := if maximum + 1 < TWO_TO_THE_64 then Some(maximum + 1) else None;
  }

  // ---------- lineage ----------

  predicate Matches(seals: Seals, id: Identity, m: Manifest, generation: Word64, digest: Digest) {
    ValidManifest(seals, m) && m.id == id && m.generation == generation && m.digest == digest
  }

  /** `prior` is the parent that `m` names, and comes strictly earlier. */
  predicate IsParent(seals: Seals, id: Identity, m: Manifest, prior: Manifest) {
    && m.parent.Some? && m.parent.value.generation < m.generation
    && Matches(seals, id, prior, m.parent.value.generation, m.parent.value.digest)
  }

  predicate IsRoot(m: Manifest) {
    m.parent.None? && m.generation == 0
  }

  /** A complete ancestry, child before parent: every parent is read from disk and the
      last is generation 0. */
  predicate Lineage(seals: Seals, id: Identity, gens: GenerationsDir, line: seq<Manifest>) {
    line != [] &&
    if |line| == 1 then IsRoot(line[0])
    else
      && IsParent(seals, id, line[0], line[1]) && ReadManifest(gens, line[1].generation) == Some(line[1])
      && Lineage(seals, id, gens, line[1..])
  }

  ghost predicate HasLineage(seals: Seals, id: Identity, gens: GenerationsDir, m: Manifest) {
    exists line :: Lineage(seals, id, gens, line) && line[0] == m
  }

  /** Generations strictly decrease along a lineage, down to 0. */
  lemma {:induction false} LineageDecreases(seals: Seals, id: Identity, gens: GenerationsDir, line: seq<Manifest>)
    requires Lineage(seals, id, gens, line)
    ensures forall i, j :: 0 <= i < j < |line| ==> line[i].generation > line[j].generation
    ensures IsRoot(line[|line| - 1])
  {
    if |line| > 1 {
      LineageDecreases(seals, id, gens, line[1..]);
      forall i, j | 0 <= i < j < |line| ensures line[i].generation > line[j].generation {
        if i > 0 {
          assert line[1..][i - 1].generation > line[1..][j - 1].generation;
        } else if j > 1 {
          assert line[1..][0].generation > line[1..][j - 1].generation;
        }
      }
    }
  }

  lemma ParentHasLineage(seals: Seals, id: Identity, gens: GenerationsDir, m: Manifest, prior: Manifest)
    requires IsParent(seals, id, m, prior) && ReadManifest(gens, prior.generation) == Some(prior)
    ensures HasLineage(seals, id, gens, m) <==> HasLineage(seals, id, gens, prior)
  {
    if HasLineage(seals, id, gens, prior) {
      var line :| Lineage(seals, id, gens, line) && line[0] == prior;
      assert ([m] + line)[1..] == line;
      assert Lineage(seals, id, gens, [m] + line);
    }
    if HasLineage(seals, id, gens, m) {
      var line :| Lineage(seals, id, gens, line) && line[0] == m;
      assert line[1] == prior;
      assert Lineage(seals, id, gens, line[1..]);
    }
  }

  lemma LineageNeedsParent(seals: Seals, id: Identity, gens: GenerationsDir, m: Manifest)
    requires HasLineage(seals, id, gens, m)
    ensures m.parent.None? ==> m.generation == 0
    ensures m.parent.Some? ==>
      var prior := ReadManifest(gens, m.parent.value.generation);
      prior.Some? && IsParent(seals, id, m, prior.value)
  {
    var line :| Lineage(seals, id, gens, line) && line[0] == m;
  }

  /** Walk the parents.  The walk ends, and accepts exactly the manifests that
      have a complete ancestry down to generation 0. */
  method ValidateLineage(seals: Seals, id: Identity, gens: GenerationsDir, active: Manifest) returns (accepted: bool)
    ensures accepted <==> HasLineage(seals, id, gens, active)
  {
    var current := active;
    while current.parent.Some?
      invariant HasLineage(seals, id, gens, active) <==> HasLineage(seals, id, gens, current)
      decreases current.generation
    {
      var parent := current.parent.value;
      var prior := if parent.generation < current.generation then ReadManifest(gens, parent.generation) else None;
      if prior.None? || !Matches(seals, id, prior.value, parent.generation, parent.digest) {
        if HasLineage(seals, id, gens, current) {
          LineageNeedsParent(seals, id, gens, current);
        }
        return false;
      }
      ParentHasLineage(seals, id, gens, current, prior.value);
      current := prior.value;
    }
    if HasLineage(seals, id, gens, current) {
      LineageNeedsParent(seals, id, gens, current);
    }
    assert IsRoot(current) ==> Lineage(seals, id, gens, [current]);
    return current.generation == 0;
  }

  // ---------- reopening ----------

  /** What `open` accepts, and as which active manifest. */
  ghost predicate Opens(seals: Seals, id: Identity, v: Volume, m: Manifest) {
    && Now(v.work, GENERATIONS_DIR).Some? && Now(v.work, GENERATIONS_DIR).value.kind == Folder
    && EntriesAccepted(v.gens)
    && ReadPointer(v.work).Some?
    && var p := ReadPointer(v.work).value;
      && ValidPointer(seals, p)
      && ReadManifest(v.gens, p.generation) == Some(m) && Matches(seals, id, m, p.generation, p.manifest)
      && HasLineage(seals, id, v.gens, m)
      && var dir := Now(v.gens, GenerationName(p.generation)).value.data; dir.repo.Some? && dir.journal.Some?
  }

  method Open(seals: Seals, id: Identity, v: Volume, listing: seq<(string, Kind)>) returns (r: Option<Manifest>)
    requires Lists(listing, Kinds(v.gens))
    ensures r.Some? ==> Opens(seals, id, v, r.value)
    ensures r.None? ==> forall m :: !Opens(seals, id, v, m)
  {
    var generations := Now(v.work, GENERATIONS_DIR);
    if generations.None? || generations.value.kind != Folder {
      return None;
    }
    var inspected := InspectEntries(listing, v.gens);
    if !inspected {
      return None;
    }
    var p := ReadPointer(v.work);
    if p.None? || !ValidPointer(seals, p.value) {
      return None;
    }
    var m := ReadManifest(v.gens, p.value.generation);
    if m.None? || !Matches(seals, id, m.value, p.value.generation, p.value.manifest) {
      return None;
    }
    var accepted := ValidateLineage(seals, id, v.gens, m.value);
    if !accepted {
      return None;
    }
    var dir := Now(v.gens, GenerationName(p.value.generation)).value.data;
    if dir.repo.None? || dir.journal.None? {
      return None;
    }
    return m;
  }

  // ---------- what is accepted, manifest by manifest ----------

  /** A manifest of this workspace whose digest covers everything it says. */
  predicate Genuine(seals: Seals, id: Identity, m: Manifest) {
    && m.schema == SCHEMA_VERSION && m.id == id && seals.checkpoint(m.checkpoint) && m.checkpoint.gitTree.Some?
    && m.digest == seals.manifest(Body(id, m.generation, m.parent, m.checkpoint.digest))
  }

  /** The directory of its generation holds this manifest. */
  predicate OnDisk(gens: GenerationsDir, m: Manifest) {
    match Now(gens, GenerationName(m.generation))
    case None => false
    case Some(Item(kind, data, _)) => kind == Folder && data.manifest == Some(m)
  }

  /** The next manifest is the genuine parent on disk that this one names, with a smaller number. */
  predicate Descends(seals: Seals, id: Identity, gens: GenerationsDir, line: seq<Manifest>, i: nat)
    requires i + 1 < |line|
  {
    && line[i].parent == Some(Parent(line[i + 1].generation, line[i + 1].digest))
    && line[i + 1].generation < line[i].generation && Genuine(seals, id, line[i + 1]) && OnDisk(gens, line[i + 1])
  }

  /** A lineage, link by link: every manifest descends from the next, and the last is generation 0
      without a parent. */
  lemma {:induction false} LineageExactly(seals: Seals, id: Identity, gens: GenerationsDir, line: seq<Manifest>)
    ensures Lineage(seals, id, gens, line) <==>
      && line != [] && line[|line| - 1].parent.None? && line[|line| - 1].generation == 0
      && forall i :: 0 <= i < |line| - 1 ==> Descends(seals, id, gens, line, i)
  {
    if |line| > 1 {
      var rest := line[1..];
      LineageExactly(seals, id, gens, rest);
      forall i | 0 <= i < |rest| - 1
        ensures Descends(seals, id, gens, line, i + 1) <==> Descends(seals, id, gens, rest, i)
      {
      }
      assert Descends(seals, id, gens, line, 0) <==>
        IsParent(seals, id, line[0], line[1]) && ReadManifest(gens, line[1].generation) == Some(line[1]);
      forall i | 0 < i < |line| - 1
        ensures Descends(seals, id, gens, line, i) <==> Descends(seals, id, gens, rest, i - 1)
      {
      }
    }
  }

  /** A store opens as `m` exactly when the active pointer is the sealed pointer to `m`, `m` is
      genuine and on disk with a repository, a journal and a lineage, and the generations directory
      holds nothing but directories of generations and of staging. */
  lemma OpensExactly(seals: Seals, id: Identity, v: Volume, m: Manifest)
    ensures Opens(seals, id, v, m) <==>
      && Now(v.work, GENERATIONS_DIR).Some? && Now(v.work, GENERATIONS_DIR).value.kind == Folder
      && (forall name :: Now(v.gens, name).Some? ==>
            && Now(v.gens, name).value.kind == Folder
            && (STAGE_PREFIX <= name || exists g: Word64 :: name == GenerationName(g)))
      && PointsTo(seals, v.work, m) && Genuine(seals, id, m) && OnDisk(v.gens, m) && HasLineage(seals, id, v.gens, m)
      && var data := Now(v.gens, GenerationName(m.generation)).value.data; data.repo.Some? && data.journal.Some?
  {
    forall name | Now(v.gens, name).Some?
      ensures ParseGenerationName(name).Some? <==> exists g: Word64 :: name == GenerationName(g)
    {
      NamesAGeneration(name);
    }
  }

  lemma NamesAGeneration(name: string)
    ensures ParseGenerationName(name).Some? <==> exists g: Word64 :: name == GenerationName(g)
  {
    if ParseGenerationName(name).Some? {
      GenerationNameExact(name, ParseGenerationName(name).value);
    }
    forall g: Word64 | name == GenerationName(g) ensures ParseGenerationName(name).Some? {
      GenerationNameExact(name, g);
    }
  }

  /** The active pointer is the regular file that names this manifest, sealed. */
  predicate PointsTo(seals: Seals, work: WorkDir, m: Manifest) {
    match Now(work, ACTIVE_FILE)
    case None => false
    case Some(Item(kind, data, _)) =>
      kind == Regular
      && data == Some(Pointer(SCHEMA_VERSION, m.generation, m.digest, seals.pointer(m.generation, m.digest)))
  }

  /** A manifest can be made exactly for a genuine checkpoint with a Git tree, and says what it was
      made of. */
  lemma NewManifestExactly(seals: Seals, id: Identity, generation: Word64, parent: Option<Parent>,
                           checkpoint: Checkpoint)
    ensures var m := NewManifest(seals, id, generation, parent, checkpoint);
      && (m.Some? <==> seals.checkpoint(checkpoint) && checkpoint.gitTree.Some?)
      && (m.Some? ==>
            Genuine(seals, id, m.value) && m.value.generation == generation && m.value.parent == parent
            && m.value.checkpoint == checkpoint)
  {
  }

  // ---------- lineage binding ----------

  ghost predicate SameBody(a: Manifest, b: Manifest) {
    BodyOf(a) == BodyOf(b)
  }

  ghost predicate LinesCollide(hash: Bytes -> Digest, a: seq<Manifest>, b: seq<Manifest>) {
    exists x, y :: x in a && y in b && BodiesCollide(hash, BodyOf(x), BodyOf(y))
  }

  ghost predicate SameBodies(a: seq<Manifest>, b: seq<Manifest>) {
    |a| == |b| && forall i :: 0 <= i < |a| ==> SameBody(a[i], b[i])
  }

  lemma ParentsBind(hash: Bytes -> Digest, seals: Seals, id: Identity, a: seq<Manifest>, b: seq<Manifest>)
    requires seals.manifest == ManifestSeal(hash) && |a| > 1 && |b| > 1
    requires IsParent(seals, id, a[0], a[1]) && IsParent(seals, id, b[0], b[1]) && SameBody(a[0], b[0])
    ensures SameBody(a[1], b[1]) || LinesCollide(hash, a, b)
  {
    ManifestBinds(hash, BodyOf(a[1]), BodyOf(b[1]));
    assert a[1] in a && b[1] in b;
  }

  lemma TailsCollide(hash: Bytes -> Digest, a: seq<Manifest>, b: seq<Manifest>)
    requires a != [] && b != [] && LinesCollide(hash, a[1..], b[1..])
    ensures LinesCollide(hash, a, b)
  {
    var x, y :| x in a[1..] && y in b[1..] && BodiesCollide(hash, BodyOf(x), BodyOf(y));
    assert x in a && y in b;
  }

  /** The active manifest binds the whole ancestry: two stores whose active manifests have
      equal bodies have lineages of one length with equal bodies throughout (identity,
      generation, parent and checkpoint digest), or a digest collision is exhibited.
      `ManifestBinds` starts it from equal manifest digests. */
  lemma {:induction false} LineageBinds(hash: Bytes -> Digest, seals: Seals, id: Identity,
                                        f: GenerationsDir, a: seq<Manifest>, g: GenerationsDir, b: seq<Manifest>)
    requires seals.manifest == ManifestSeal(hash)
    requires Lineage(seals, id, f, a) && Lineage(seals, id, g, b) && SameBody(a[0], b[0])
    ensures SameBodies(a, b) || LinesCollide(hash, a, b)
  {
    if |a| > 1 && |b| > 1 {
      ParentsBind(hash, seals, id, a, b);
      if SameBody(a[1], b[1]) {
        LineageBinds(hash, seals, id, f, a[1..], g, b[1..]);
        if SameBodies(a[1..], b[1..]) {
          ConsBodies(a, b);
        } else {
          TailsCollide(hash, a, b);
        }
      }
    }
  }

  lemma ConsBodies(a: seq<Manifest>, b: seq<Manifest>)
    requires a != [] && b != [] && SameBody(a[0], b[0]) && SameBodies(a[1..], b[1..])
    ensures SameBodies(a, b)
  {
    forall i | 0 <= i < |a| ensures SameBody(a[i], b[i]) {
      if i > 0 {
        assert SameBody(a[1..][i - 1], b[1..][i - 1]);
      }
    }
  }
}
