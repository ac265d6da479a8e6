/** Reading a preserved workspace back from its directory tree.

  The artifact's journal is loaded as any journal directory is, and its content store is
  opened as any store is; JSON and bundle formats are functions of bytes.
*/
module Preservation {
  import opened Framing
  import opened Names
  import opened Text
  import D = Durability
  import opened Journal
  import JS = JournalStore
  import C = Cas
  import opened Artifact
  import opened Json
  import History

  type Hash = Bytes -> Digest

  /** A directory tree as a file system holds it. */
  type Tree = f: Forest | Hashable(f) witness Empty

  const GENERATION: Bytes := Ascii("generation")
  const JOURNAL: Bytes := Ascii("journal")
  const CAS: Bytes := Ascii("cas")
  const BUNDLE: Bytes := Ascii("repository.bundle")
  const SUBJECT: Bytes := Ascii("subject.json")
  const WORKSPACE: Bytes := Ascii("workspace.json")

  /** The workspace state that a receipt is about; `rest` is what else it records. */
  datatype State = State(
    attempt: Buffer, nonce: Buffer, generation: nat, generationDigest: Digest, journalEnd: Word64,
    journalRoot: Digest, rest: Bytes)

  /** The segments of a canonical path. */
  type Place = t: Trail | Segments(t) witness []

  datatype Payload = Payload(
    schema: nat, stateDigest: Digest, artifactDigest: Digest, destination: Place, device: nat, inode: nat,
    target: Place)

  datatype Sealed = Sealed(payload: Payload, tag: Digest)

  /** How bytes read and values are written. */
  datatype Codecs = Codecs(
    batch: Bytes -> Option<StoredBatch>,
    bundle: Bytes -> bool,
    state: State -> Bytes, parseState: Bytes -> Option<State>,
    payload: Payload -> Bytes,
    receipt: Sealed -> Bytes, parseReceipt: Bytes -> Option<Sealed>)

  // ---------- looking into a tree ----------

  function Child(f: Forest, name: Bytes): Option<Forest> {
    match f
    case Empty => None
    case Entry(n, kind, below, others) =>
      if n == name then (if kind.Directory? then Some(below) else None) else Child(others, name)
  }

  function FileIn(f: Forest, name: Bytes): Option<Bytes> {
    match f
    case Empty => None
    case Entry(n, kind, _, others) =>
      if n == name then (if kind.Regular? then Some(kind.bytes) else None) else FileIn(others, name)
  }

  function NamesIn(f: Forest): set<Bytes> {
    match f case Empty => {} case Entry(n, _, _, others) => {n} + NamesIn(others)
  }

  function NameOf(bytes: Bytes): (name: string)
    ensures |name| == |bytes|
  {
    seq(|bytes|, i requires 0 <= i < |bytes| => bytes[i] as char)
  }

  lemma NameOfInjective(a: Bytes, b: Bytes)
    requires NameOf(a) == NameOf(b)
    ensures a == b
  {
    assert |a| == |b|;
    forall i | 0 <= i < |a| ensures a[i] == b[i] {
      assert NameOf(a)[i] == NameOf(b)[i];
    }
  }

  /** The entries of one directory, as `item` reads each. */
  function Entries<T>(f: Forest, item: Kind -> D.Item<T>): map<string, D.Item<T>> {
    match f
    case Empty => map[]
    case Entry(name, kind, _, others) => Entries(others, item)[NameOf(name) := item(kind)]
  }

  function Listing<T>(f: Forest, item: Kind -> D.Item<T>): seq<(string, D.Item<T>)> {
    match f
    case Empty => []
    case Entry(name, kind, _, others) => [(NameOf(name), item(kind))] + Listing(others, item)
  }

  lemma {:induction false} ListingNames<T>(f: Forest, item: Kind -> D.Item<T>, name: Bytes)
    requires !HasName(f, name)
    ensures NameOf(name) !in Entries(f, item)
    ensures forall e :: e in Listing(f, item) ==> e.0 != NameOf(name)
  {
    if f.Entry? {
      ListingNames(f.others, item, name);
      if NameOf(f.name) == NameOf(name) {
        NameOfInjective(f.name, name);
      }
    }
  }

  lemma {:induction false} ListingLists<T(!new)>(f: Forest, item: Kind -> D.Item<T>)
    requires ValidForest(f)
    ensures D.Lists(Listing(f, item), Entries(f, item))
  {
    if f.Entry? {
      ListingLists(f.others, item);
      ListingNames(f.others, item, f.name);
      var first, rest := (NameOf(f.name), item(f.kind)), Listing(f.others, item);
      var all := [first] + rest;
      forall i, j | 0 <= i < j < |all| ensures all[i].0 != all[j].0 {
        assert all[j] == rest[j - 1] && all[j] in rest;
        assert i > 0 ==> all[i] == rest[i - 1];
      }
      forall name | name in Entries(f, item) ensures (name, Entries(f, item)[name]) in all {
        assert name != first.0 ==> (name, Entries(f.others, item)[name]) in rest;
        assert all[0] == first;
      }
    }
  }

  lemma {:induction false} ChildIsValid(f: Forest, name: Bytes)
    requires ValidForest(f) && Child(f, name).Some?
    ensures ValidForest(Child(f, name).value)
  {
    if f.name != name {
      ChildIsValid(f.others, name);
    }
  }

  lemma {:induction false} FlattenShifts(prefix: Trail, inner: Trail, f: Forest)
    ensures forall r :: r in Flatten(inner, f) ==> Record(prefix + r.trail, r.kind) in Flatten(prefix + inner, f)
    decreases f
  {
    if f.Entry? {
      var here := inner + [f.name];
      assert prefix + here == prefix + inner + [f.name];
      FlattenShifts(prefix, here, f.below);
      FlattenShifts(prefix, inner, f.others);
    }
  }

  lemma {:induction false} ChildRecords(f: Forest, name: Bytes)
    requires Child(f, name).Some?
    ensures forall r :: r in Flatten([name], Child(f, name).value) ==> r in Flatten([], f)
  {
    assert [] + [f.name] == [f.name];
    if f.name != name {
      ChildRecords(f.others, name);
    }
  }

  lemma ShorterIsValid(r: Record, name: Bytes)
    requires r.trail != [] && ValidRecord(Record([name] + r.trail, r.kind))
    ensures ValidRecord(r)
  {
    var long := [name] + r.trail;
    assert long[1..] == r.trail;
    forall i | 0 <= i < |r.trail| ensures SLASH !in r.trail[i] {
      assert long[i + 1] == r.trail[i];
    }
    assert Join(long, SLASH) == name + [SLASH] + Join(r.trail, SLASH);
  }

  /** A directory of a tree is a tree. */
  lemma ChildIsTree(f: Tree, name: Bytes)
    requires Child(f, name).Some?
    ensures Hashable(Child(f, name).value)
  {
    var below := Child(f, name).value;
    ChildIsValid(f, name);
    ChildRecords(f, name);
    FlattenShifts([name], [], below);
    FlattenIsUnder([], below);
    assert [name] + [] == [name];
    forall r | r in Flatten([], below) ensures ValidRecord(r) {
      assert Under([], r);
      ShorterIsValid(r, name);
    }
  }

  /** The path is hashed with this kind. */
  ghost predicate Listed(f: Forest, trail: Trail, kind: Kind) {
    Record(trail, kind) in Flatten([], f)
  }

  lemma {:induction false} TopIsListed(f: Forest, name: Bytes, kind: Kind)
    requires ValidForest(f)
    ensures Listed(f, [name], kind) <==> TopKind(f, name) == Some(kind)
  {
    if f.Entry? {
      TopIsListed(f.others, name, kind);
      assert [] + [f.name] == [f.name];
      FlattenIsUnder([f.name], f.below);
      forall r | r in Flatten([f.name], f.below) ensures |r.trail| > 1 {
        assert Under([f.name], r);
      }
      if f.name == name {
        NotAmongOthers(f.others, name, kind);
      }
    }
  }

  lemma {:induction false} NotAmongOthers(f: Forest, name: Bytes, kind: Kind)
    requires !HasName(f, name)
    ensures !Listed(f, [name], kind)
  {
    if f.Entry? {
      NotAmongOthers(f.others, name, kind);
      assert [] + [f.name] == [f.name];
      FlattenIsUnder([f.name], f.below);
      forall r | r in Flatten([f.name], f.below) ensures |r.trail| > 1 {
        assert Under([f.name], r);
      }
      assert [f.name][0] != [name][0];
    }
  }

  /** The kind of an entry of the directory itself. */
  function TopKind(f: Forest, name: Bytes): Option<Kind> {
    match f case Empty => None case Entry(n, kind, _, others) => if n == name then Some(kind) else TopKind(others, name)
  }

  /** What is found in a tree is what its hashed records say: a file of exactly these bytes, a
      directory, and no other names. */
  lemma LookupExactly(f: Forest, name: Bytes)
    requires ValidForest(f)
    ensures forall bytes :: FileIn(f, name) == Some(bytes) <==> exists mode :: Listed(f, [name], Regular(mode, bytes))
    ensures Child(f, name).Some? <==> exists mode :: Listed(f, [name], Directory(mode))
    ensures name in NamesIn(f) <==> exists kind :: Listed(f, [name], kind)
  {
    TopKindIs(f, name);
    forall kind ensures Listed(f, [name], kind) <==> TopKind(f, name) == Some(kind) {
      TopIsListed(f, name, kind);
    }
    if TopKind(f, name).Some? {
      var kind := TopKind(f, name).value;
      assert Listed(f, [name], kind);
      match kind
      case Directory(mode) => assert Listed(f, [name], Directory(mode));
      case Regular(mode, bytes) => assert Listed(f, [name], Regular(mode, bytes));
      case Symlink(_) =>
    }
  }

  lemma {:induction false} TopKindIs(f: Forest, name: Bytes)
    ensures FileIn(f, name) == match TopKind(f, name) case Some(Regular(_, bytes)) => Some(bytes) case _ => None
    ensures Child(f, name).Some? <==> TopKind(f, name).Some? && TopKind(f, name).value.Directory?
    ensures name in NamesIn(f) <==> TopKind(f, name).Some?
  {
    if f.Entry? {
      TopKindIs(f.others, name);
    }
  }

  // ---------- the journal of a generation ----------

  function BatchFileOf(codecs: Codecs): Kind -> D.Item<JS.Content> {
    (kind: Kind) => match kind
      case Regular(_, bytes) => D.Item(D.Regular, codecs.batch(bytes), true)
      case Directory(_) => D.Item(D.Folder, None, true)
      case Symlink(_) => D.Item(D.Other, None, true)
  }

  /** The generation's journal directory loads as these operations. */
  ghost predicate JournalReads(hash: Hash, codecs: Codecs, generation: Forest, ops: seq<JournalOp>) {
    && Child(generation, JOURNAL).Some?
    && var files := Entries(Child(generation, JOURNAL).value, BatchFileOf(codecs));
      exists chain :: JS.Stores(files, chain) && Chained(BatchChecksum(hash), chain) && ops == ChainOps(chain)
  }

  /** A generation's journal loads as one list of operations at most. */
  lemma JournalReadsOnce(hash: Hash, codecs: Codecs, generation: Forest, a: seq<JournalOp>, b: seq<JournalOp>)
    requires JournalReads(hash, codecs, generation, a) && JournalReads(hash, codecs, generation, b)
    ensures a == b
  {
    var files := Entries(Child(generation, JOURNAL).value, BatchFileOf(codecs));
    var x :| JS.Stores(files, x) && Chained(BatchChecksum(hash), x) && a == ChainOps(x);
    var y :| JS.Stores(files, y) && Chained(BatchChecksum(hash), y) && b == ChainOps(y);
    JS.StoredChainIsUnique(BatchChecksum(hash), files, x, y);
  }

  method LoadJournal(hash: Hash, codecs: Codecs, generation: Tree) returns (r: Option<seq<JournalOp>>)
    ensures forall ops :: JournalReads(hash, codecs, generation, ops) <==> r == Some(ops)
  {
    var dir := Child(generation, JOURNAL);
    if dir.None? {
      return None;
    }
    ChildIsTree(generation, JOURNAL);
    ListingLists(dir.value, BatchFileOf(codecs));
    var listing := Listing(dir.value, BatchFileOf(codecs));
    var loaded := JS.LoadBatches(BatchChecksum(hash), listing, Entries(dir.value, BatchFileOf(codecs)));
    return if loaded.Ok? then Some(loaded.value.0) else None;
  }

  // ---------- the content store of an artifact ----------

  /** No write bit is set in the mode. */
  predicate ReadOnly(mode: nat) {
    mode / 2 % 2 == 0 && mode / 16 % 2 == 0 && mode / 128 % 2 == 0
  }

  /** An octal digit of a mode that lets nobody write. */
  predicate NoWrite(digit: nat) {
    digit in {0, 1, 4, 5}
  }

  /** A file is read-only exactly when none of the digits for its owner, group and others lets write. */
  lemma ReadOnlyExactly(special: nat, owner: nat, group: nat, others: nat)
    requires owner < 8 && group < 8 && others < 8
    ensures ReadOnly(512 * special + 64 * owner + 8 * group + others)
       <==> NoWrite(owner) && NoWrite(group) && NoWrite(others)
  {
    var mode := 512 * special + 64 * owner + 8 * group + others;
    WriteBit(64 * special + 8 * owner + group, others);
    WriteBit(8 * special + owner, group);
    WriteBit(special, owner);
    assert mode / 16 == (mode / 8) / 2 && mode / 128 == (mode / 64) / 2;
    assert mode / 8 == 64 * special + 8 * owner + group && mode / 64 == 8 * special + owner;
  }

  lemma WriteBit(high: nat, digit: nat)
    requires digit < 8
    ensures (8 * high + digit) / 2 % 2 == 0 <==> NoWrite(digit)
  {
    assert (8 * high + digit) / 2 == 4 * high + digit / 2;
    EvenPart(2 * high, digit / 2);
    DigitBit(digit);
  }

  lemma EvenPart(k: nat, half: nat)
    ensures (2 * k + half) % 2 == half % 2
  {
  }

  lemma DigitBit(digit: nat)
    requires digit < 8
    ensures digit / 2 % 2 == 0 <==> NoWrite(digit)
  {
  }

  function ObjectFileOf(kind: Kind): D.Item<C.Object> {
    match kind
    case Regular(mode, bytes) => D.Item(D.Regular, C.Object(bytes, ReadOnly(mode)), true)
    case Directory(_) => D.Item(D.Folder, C.Object([], false), true)
    case Symlink(_) => D.Item(D.Other, C.Object([], false), true)
  }

  function CasIn(cas: Forest): D.Directory<C.Object> {
    D.DirectoryOf(Entries(cas, ObjectFileOf))
  }

  /** What reading a digest from an accepted store answers. */
  function StoreIn(hash: Hash, cas: Forest): History.Store {
    History.StoreOf(C.CasAddress(hash), CasIn(cas))
  }

  // ---------- salvage ----------

  /** The journal has exactly this range and root. */
  predicate JournalMatches(hash: Hash, ops: seq<JournalOp>, state: State) {
    Through(ops) == state.journalEnd && hash(TreePreimage(ops)) == state.journalRoot
  }

  /** The artifact holds the generation, its matching journal, and every object the journal names. */
  ghost predicate SalvagedAs(hash: Hash, codecs: Codecs, tree: Forest, state: State, ops: seq<JournalOp>) {
    && Child(tree, GENERATION).Some? && Child(tree, CAS).Some?
    && var generation, cas := Child(tree, GENERATION).value, Child(tree, CAS).value;
      && HashArtifact(hash, generation) == state.generationDigest
      && JournalReads(hash, codecs, generation, ops)
      && Through(ops) == state.journalEnd && hash(TreePreimage(ops)) == state.journalRoot
      && C.Accepted(C.CasAddress(hash), CasIn(cas)) && History.Closed(StoreIn(hash, cas), ops)
  }

  ghost predicate Salvageable(hash: Hash, codecs: Codecs, tree: Forest, state: State) {
    exists ops :: SalvagedAs(hash, codecs, tree, state, ops)
  }

  /** Scan the artifact's content store. */
  method ScanStore(hash: Hash, cas: Tree) returns (ok: bool)
    ensures ok <==> C.Accepted(C.CasAddress(hash), CasIn(cas))
  {
    ListingLists(cas, ObjectFileOf);
    var listing := Listing(cas, ObjectFileOf);
    for n := 0 to |listing|
      invariant forall i :: 0 <= i < n ==> C.EntryAccepted(C.CasAddress(hash), listing[i].0, listing[i].1)
    {
      if !C.EntryAccepted(C.CasAddress(hash), listing[n].0, listing[n].1) {
        assert listing[n] in listing && D.Now(CasIn(cas), listing[n].0) == Some(listing[n].1);
        return false;
      }
    }
    forall name | D.Now(CasIn(cas), name).Some?
      ensures C.EntryAccepted(C.CasAddress(hash), name, D.Now(CasIn(cas), name).value)
    {
      assert (name, Entries(cas, ObjectFileOf)[name]) in listing;
    }
    return true;
  }

  method VerifySalvage(hash: Hash, codecs: Codecs, tree: Tree, state: State) returns (ok: bool)
    ensures ok <==> Salvageable(hash, codecs, tree, state)
  {
    var generation, cas := Child(tree, GENERATION), Child(tree, CAS);
    if generation.None? || HashArtifact(hash, generation.value) != state.generationDigest {
      return false;
    }
    ChildIsTree(tree, GENERATION);
    var ops := LoadJournal(hash, codecs, generation.value);
    if ops.None? || !JournalMatches(hash, ops.value, state) || cas.None? {
      return false;
    }
    ChildIsTree(tree, CAS);
    var accepted := ScanStore(hash, cas.value);
    if !accepted {
      return false;
    }
    ok := History.ValidateObjects(StoreIn(hash, cas.value), ops.value);
    assert ok ==> SalvagedAs(hash, codecs, tree, state, ops.value);
  }

  // ---------- complete artifacts ----------

  predicate ShapeIsExpected(f: Forest) {
    NamesIn(f) == {CAS, GENERATION, BUNDLE, SUBJECT, WORKSPACE}
  }

  predicate BundleVerifies(codecs: Codecs, f: Forest) {
    FileIn(f, BUNDLE).Some? && codecs.bundle(FileIn(f, BUNDLE).value)
  }

  function SubjectIn(codecs: Codecs, f: Forest): Option<State> {
    match FileIn(f, SUBJECT) case Some(bytes) => codecs.parseState(bytes) case None => None
  }

  ghost predicate CompleteArtifact(hash: Hash, codecs: Codecs, tree: Forest, state: State) {
    && NamesIn(tree) == {CAS, GENERATION, BUNDLE, SUBJECT, WORKSPACE}
    && FileIn(tree, BUNDLE).Some? && codecs.bundle(FileIn(tree, BUNDLE).value)
    && Salvageable(hash, codecs, tree, state)
  }

  // ---------- receipts ----------

  /** A buffer can hold the encoding; a value whose encoding does not fit cannot be encoded. */
  predicate Fits(encoding: Bytes) {
    |encoding| < TWO_TO_THE_64
  }

  const SEAL_DOMAIN: Bytes := Ascii("bullet-git-preservation-receipt-v1")
  const MAX_RECEIPT_HEX_BYTES := 65_536

  /** What the keyed digest of a receipt covers. */
  function SealPreimage(codecs: Codecs, p: Payload): Bytes {
    SEAL_DOMAIN + Frame(codecs.payload(p))
  }

  function EncodeReceipt(codecs: Codecs, r: Sealed): string {
    ToHex(codecs.receipt(r))
  }

  function DecodeReceipt(codecs: Codecs, token: string): Option<Sealed> {
    if token == "" || |token| > MAX_RECEIPT_HEX_BYTES || |token| % 2 != 0 then None
    else if exists i :: 0 <= i < |token| && !IsLowerHex(token[i]) then None
    else
      match codecs.parseReceipt(FromHex(token))
      case None => None
      case Some(r) => if EncodeReceipt(codecs, r) == token then Some(r) else None
  }

  /** Exactly the canonical encoding of a receipt decodes, to that receipt. */
  lemma TokenIsCanonical(codecs: Codecs, token: string, r: Sealed)
    ensures DecodeReceipt(codecs, token) == Some(r) <==>
      && token == EncodeReceipt(codecs, r) && 0 < |token| <= MAX_RECEIPT_HEX_BYTES
      && codecs.parseReceipt(codecs.receipt(r)) == Some(r)
  {
    FromHexToHex(codecs.receipt(r));
  }

  /** The receipt of a token whose seal is valid. */
  function OpenSeal(codecs: Codecs, mac: Bytes -> Digest, token: string): Option<Payload> {
    match DecodeReceipt(codecs, token)
    case Some(r) =>
      if Fits(codecs.payload(r.payload)) && r.tag == mac(SealPreimage(codecs, r.payload)) then Some(r.payload) else None
    case None => None
  }

  /** A token opens as a payload exactly when it is the canonical token of that payload under the
      keyed digest, no longer than admitted, of a receipt that reads back. */
  lemma SealOpensExactly(codecs: Codecs, mac: Bytes -> Digest, token: string, p: Payload)
    ensures OpenSeal(codecs, mac, token) == Some(p) <==>
      var r := Sealed(p, mac(SEAL_DOMAIN + Frame(codecs.payload(p))));
      && |codecs.payload(p)| < TWO_TO_THE_64 && token == ToHex(codecs.receipt(r))
      && 0 < |token| <= MAX_RECEIPT_HEX_BYTES && codecs.parseReceipt(codecs.receipt(r)) == Some(r)
  {
    var r := Sealed(p, mac(SealPreimage(codecs, p)));
    TokenIsCanonical(codecs, token, r);
    if DecodeReceipt(codecs, token).Some? {
      TokenIsCanonical(codecs, token, DecodeReceipt(codecs, token).value);
    }
  }

  /** One payload has one valid token: no second token under another digest can carry it. */
  lemma OneTokenPerPayload(codecs: Codecs, mac: Bytes -> Digest, a: string, b: string)
    requires OpenSeal(codecs, mac, a).Some? && OpenSeal(codecs, mac, a) == OpenSeal(codecs, mac, b)
    ensures a == b
  {
    TokenIsCanonical(codecs, a, DecodeReceipt(codecs, a).value);
    TokenIsCanonical(codecs, b, DecodeReceipt(codecs, b).value);
  }
}
