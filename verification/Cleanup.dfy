/** Preservation receipts from issue to deletion.

  A receipt seals what was preserved, where, and of which workspace state.  A workspace is
  deleted only while its receipt still describes it and the sealed artifact is still whole.
  Canonical paths are their segments.
*/
module Cleanup {
  import opened Framing
  import opened Journal
  import opened Artifact
  import opened Json
  import opened Preservation

  const STATE_DOMAIN: Bytes := Ascii("bullet-git-preservation-state-v1")
  const RECEIPT_SCHEMA := 1

  /** Which workspace: its attempt, nonce and work directory. */
  datatype Home = Home(attempt: Buffer, nonce: Buffer, workDir: Place)

  /** The live workspace: its active generation, and what else its state records. */
  datatype Live = Live(home: Home, runtimeDir: Place, generation: nat, active: Tree, rest: Bytes)

  /** The destination as found, if it is an ordinary canonical directory: its identity and tree,
      and whether its content store's directory can be synced. */
  datatype Found = Found(device: nat, inode: nat, tree: Tree, syncs: bool)

  datatype Permit = Permit(
    home: Home, receipt: Digest, destination: Place, device: nat, inode: nat, artifactDigest: Digest, state: State)

  // ---------- the state a receipt is about ----------

  function StateFor(hash: Hash, live: Live, ops: seq<JournalOp>): State {
    State(live.home.attempt, live.home.nonce, live.generation, HashArtifact(hash, live.active), Through(ops),
          hash(TreePreimage(ops)), live.rest)
  }

  ghost predicate Describes(hash: Hash, codecs: Codecs, live: Live, state: State) {
    exists ops :: JournalReads(hash, codecs, live.active, ops) && state == StateFor(hash, live, ops)
  }

  /** Capture the state of a workspace; there is none when its journal does not load. */
  method CaptureState(hash: Hash, codecs: Codecs, live: Live) returns (state: Option<State>)
    ensures forall s :: Describes(hash, codecs, live, s) <==> state == Some(s)
  {
    var ops := LoadJournal(hash, codecs, live.active);
    state := if ops.Some? then Some(StateFor(hash, live, ops.value)) else None;
    assert ops.Some? ==> JournalReads(hash, codecs, live.active, ops.value);
  }

  /** Two workspaces with one state are the same workspace in the same generation with the same
      tree and journal, or two preimages collide. */
  lemma StateBindsWorkspace(hash: Hash, codecs: Codecs, a: Live, b: Live, state: State)
    requires Describes(hash, codecs, a, state) && Describes(hash, codecs, b, state)
    ensures a.home.attempt == b.home.attempt && a.home.nonce == b.home.nonce && a.generation == b.generation
    ensures a.rest == b.rest && SameTree(hash, a.active, b.active)
    ensures forall x, y :: JournalReads(hash, codecs, a.active, x) && JournalReads(hash, codecs, b.active, y) ==>
      x == y || Collide(hash, TreePreimage(x), TreePreimage(y))
  {
    var own :| JournalReads(hash, codecs, a.active, own) && state == StateFor(hash, a, own);
    var other :| JournalReads(hash, codecs, b.active, other) && state == StateFor(hash, b, other);
    ArtifactDigestBinds(hash, a.active, b.active);
    forall x, y | JournalReads(hash, codecs, a.active, x) && JournalReads(hash, codecs, b.active, y)
      ensures x == y || Collide(hash, TreePreimage(x), TreePreimage(y))
    {
      JournalReadsOnce(hash, codecs, a.active, x, own);
      JournalReadsOnce(hash, codecs, b.active, y, other);
      TreeBindsOps(hash, x, y);
    }
  }

  function StateFields(codecs: Codecs, s: State): seq<Bytes> {
    [STATE_DOMAIN, codecs.state(s)]
  }

  function StateDigest(hash: Hash, codecs: Codecs, s: State): Digest {
    FramedDigest(hash, StateFields(codecs, s))
  }

  /** States and payloads can be read off their encodings. */
  ghost predicate Faithful(codecs: Codecs) {
    && (forall s, t :: codecs.state(s) == codecs.state(t) ==> s == t)
    && (forall p, q :: codecs.payload(p) == codecs.payload(q) ==> p == q)
  }

  ghost predicate StatesCollide(hash: Hash, codecs: Codecs, a: State, b: State) {
    Collide(hash, FrameAll(StateFields(codecs, a)), FrameAll(StateFields(codecs, b)))
  }

  /** One state digest means one state, or two encodings collide. */
  lemma StateDigestBinds(hash: Hash, codecs: Codecs, a: State, b: State)
    requires Faithful(codecs) && StateDigest(hash, codecs, a) == StateDigest(hash, codecs, b)
    requires Fits(codecs.state(a)) && Fits(codecs.state(b))
    ensures a == b || StatesCollide(hash, codecs, a, b)
  {
    var f, g := StateFields(codecs, a), StateFields(codecs, b);
    FramedDigestBinds(hash, f, g);
    assert f[1] == codecs.state(a) && g[1] == codecs.state(b);
  }

  // ---------- sealed artifacts ----------

  predicate PathsOverlap(a: Trail, b: Trail) {
    a <= b || b <= a
  }

  /** Two places overlap exactly when some place lies at or below both. */
  lemma OverlapExactly(a: Trail, b: Trail)
    ensures PathsOverlap(a, b) <==> !Apart(a, b)
  {
    assert LiesIn(a, a) && LiesIn(b, b);
  }

  /** `t` is the place or lies below it. */
  predicate LiesIn(t: Trail, place: Trail) {
    place <= t
  }

  /** Nothing lies at or below both places. */
  ghost predicate Apart(a: Trail, b: Trail) {
    forall t: Trail :: !(LiesIn(t, a) && LiesIn(t, b))
  }

  /** The artifact under a receipt is the very directory that was sealed, still complete. */
  ghost predicate SealedArtifact(hash: Hash, codecs: Codecs, found: Option<Found>, state: State, device: nat,
                                 inode: nat, digest: Digest) {
    && found.Some? && found.value.device == device && found.value.inode == inode && found.value.syncs
    && SubjectIn(codecs, found.value.tree) == Some(state) && CompleteArtifact(hash, codecs, found.value.tree, state)
    && HashArtifact(hash, found.value.tree) == digest
  }

  /** Check a found artifact against what a receipt sealed. */
  method CheckArtifact(hash: Hash, codecs: Codecs, found: Option<Found>, state: State, device: nat, inode: nat,
                       digest: Digest)
    returns (ok: bool)
    ensures ok <==> SealedArtifact(hash, codecs, found, state, device, inode, digest)
  {
    if found.None? || found.value.device != device || found.value.inode != inode {
      return false;
    }
    if !ShapeIsExpected(found.value.tree) || SubjectIn(codecs, found.value.tree) != Some(state) {
      return false;
    }
    var salvaged := VerifySalvage(hash, codecs, found.value.tree, state);
    return salvaged && found.value.syncs && BundleVerifies(codecs, found.value.tree)
           && HashArtifact(hash, found.value.tree) == digest;
  }

  // ---------- the authority ----------

  /** What was preserved when a receipt was issued. */
  datatype Issuance = Issuance(state: State, tree: Tree, destination: Place, target: Place)

  /** The payload seals what was preserved, complete and apart from the tree to delete. */
  ghost predicate IssuedFor(hash: Hash, codecs: Codecs, p: Payload, i: Issuance) {
    && p.schema == RECEIPT_SCHEMA && p.stateDigest == StateDigest(hash, codecs, i.state)
    && p.artifactDigest == HashArtifact(hash, i.tree) && p.destination == i.destination && p.target == i.target
    && !PathsOverlap(i.destination, i.target) && CompleteArtifact(hash, codecs, i.tree, i.state)
    && Fits(codecs.state(i.state)) && Fits(codecs.payload(p))
  }

  function PayloadFor(hash: Hash, codecs: Codecs, live: Live, requested: Place, found: Found, state: State): Payload {
    Payload(RECEIPT_SCHEMA, StateDigest(hash, codecs, state), HashArtifact(hash, found.tree), requested, found.device,
            found.inode, live.home.workDir)
  }

  /** The token of a payload under the keyed digest. */
  function TokenFor(codecs: Codecs, mac: Hash, p: Payload): string {
    EncodeReceipt(codecs, Sealed(p, mac(SealPreimage(codecs, p))))
  }

  /** A receipt may be issued for this workspace at this place. */
  ghost predicate CanIssue(hash: Hash, codecs: Codecs, live: Live, after: Live, requested: Place, found: Option<Found>,
                           state: State) {
    && requested != [] && !PathsOverlap(requested, live.home.workDir) && !PathsOverlap(requested, live.runtimeDir)
    && found.Some? && found.value.syncs && CompleteArtifact(hash, codecs, found.value.tree, state)
    && Describes(hash, codecs, live, state) && Describes(hash, codecs, after, state)
    && Fits(codecs.state(state)) && Fits(codecs.payload(PayloadFor(hash, codecs, live, requested, found.value, state)))
  }

  /** The checks of issuing, and the state they establish. */
  method CheckIssue(hash: Hash, codecs: Codecs, live: Live, after: Live, requested: Place, found: Option<Found>)
    returns (state: Option<State>)
    ensures forall s :: CanIssue(hash, codecs, live, after, requested, found, s) <==> state == Some(s)
  {
    var before := CaptureState(hash, codecs, live);
    if before.None? || requested == [] || PathsOverlap(requested, live.home.workDir)
       || PathsOverlap(requested, live.runtimeDir) {
      return None;
    }
    if found.None? || !BundleVerifies(codecs, found.value.tree) || !ShapeIsExpected(found.value.tree) {
      return None;
    }
    var salvaged := VerifySalvage(hash, codecs, found.value.tree, before.value);
    var now := CaptureState(hash, codecs, after);
    if !salvaged || !found.value.syncs || now != before || !Fits(codecs.state(before.value)) {
      return None;
    }
    return if Fits(codecs.payload(PayloadFor(hash, codecs, live, requested, found.value, before.value))) then before
           else None;
  }

  /** A permit may be granted for this token. */
  ghost predicate Authorizes(hash: Hash, codecs: Codecs, mac: Hash, token: string, live: Live, found: Option<Found>,
                             state: State) {
    && OpenSeal(codecs, mac, token).Some? && Describes(hash, codecs, live, state) && Fits(codecs.state(state))
    && var p := OpenSeal(codecs, mac, token).value;
      && p.schema == RECEIPT_SCHEMA && p.stateDigest == StateDigest(hash, codecs, state)
      && p.target == live.home.workDir
      && SealedArtifact(hash, codecs, found, state, p.device, p.inode, p.artifactDigest)
  }

  function PermitFor(hash: Hash, token: string, p: Payload, live: Live, state: State): Permit {
    Permit(Home(state.attempt, state.nonce, live.home.workDir), hash(Ascii(token)), p.destination, p.device, p.inode,
           p.artifactDigest, state)
  }

  /** The tag of this payload is valid, and the authority tagged no message like it. */
  ghost predicate Forged(codecs: Codecs, mac: Hash, token: string, payload: Payload, issued: map<Payload, Issuance>) {
    && OpenSeal(codecs, mac, token) == Some(payload)
    && forall p :: p in issued ==> SealPreimage(codecs, p) != SealPreimage(codecs, payload)
  }

  lemma UnissuedIsForged(codecs: Codecs, mac: Hash, token: string, payload: Payload, issued: map<Payload, Issuance>)
    requires Faithful(codecs) && OpenSeal(codecs, mac, token) == Some(payload) && payload !in issued
    requires forall p :: p in issued ==> Fits(codecs.payload(p))
    ensures Forged(codecs, mac, token, payload, issued)
  {
    forall p | p in issued ensures SealPreimage(codecs, p) != SealPreimage(codecs, payload) {
      if SealPreimage(codecs, p) == SealPreimage(codecs, payload) {
        PartsCancel(SEAL_DOMAIN, Frame(codecs.payload(p)), SEAL_DOMAIN, Frame(codecs.payload(payload)));
        FrameCancels(codecs.payload(p), [], codecs.payload(payload), []);
      }
    }
  }

  class PreservationAuthority {
    const hash: Hash
    const codecs: Codecs
    /** The digest keyed with the private seal. */
    const mac: Hash
    /** What every issued payload stands for. */
    ghost var issued: map<Payload, Issuance>

    ghost predicate Valid()
      reads this
    {
      forall p :: p in issued ==> IssuedFor(hash, codecs, p, issued[p])
    }

    constructor (hash: Hash, codecs: Codecs, mac: Hash)
      ensures this.hash == hash && this.codecs == codecs && this.mac == mac && issued == map[] && Valid()
    {
      this.hash := hash;
      this.codecs := codecs;
      this.mac := mac;
      issued := map[];
    }

    /** Issue a receipt for a written artifact: exactly when the destination lies apart from
        everything that cleanup owns, the artifact is complete, and the workspace did not change
        meanwhile.  The receipt seals target, destination, state and artifact. */
    method Issue(live: Live, after: Live, requested: Place, found: Option<Found>)
      returns (token: Option<string>, ghost payload: Option<Payload>, ghost state: Option<State>)
      requires Valid()
      modifies this`issued
      ensures Valid() && payload.Some? == token.Some? && state.Some? == token.Some?
      ensures token.None? ==> issued == old(issued)
      ensures token.None? ==> forall s :: !CanIssue(hash, codecs, live, after, requested, found, s)
      ensures token.Some? ==> Apart(requested, live.home.workDir) && Apart(requested, live.runtimeDir)
      ensures token.Some? ==>
        && Describes(hash, codecs, live, state.value) && Describes(hash, codecs, after, state.value)
        && found.Some? && found.value.syncs && CompleteArtifact(hash, codecs, found.value.tree, state.value)
      ensures token.Some? ==>
        && CanIssue(hash, codecs, live, after, requested, found, state.value)
        && payload.value == PayloadFor(hash, codecs, live, requested, found.value, state.value)
        && token.value == TokenFor(codecs, mac, payload.value)
        && issued == old(issued)[payload.value :=
             Issuance(state.value, found.value.tree, requested, live.home.workDir)]
    {
      token, payload := None, None;
      var before := CheckIssue(hash, codecs, live, after, requested, found);
      state := before;
      if before.None? {
        return;
      }
      OverlapExactly(requested, live.home.workDir);
      OverlapExactly(requested, live.runtimeDir);
      var p := PayloadFor(hash, codecs, live, requested, found.value, before.value);
      token, payload := Some(TokenFor(codecs, mac, p)), Some(p);
      issued := issued[p := Issuance(before.value, found.value.tree, requested, live.home.workDir)];
    }

    /** Turn a token into a permit: exactly when its seal is valid, it was sealed for this
        workspace in this state, and its artifact is untouched. */
    method AuthorizeCleanup(token: string, live: Live, found: Option<Found>) returns (permit: Option<Permit>)
      ensures permit.None? ==> forall s :: !Authorizes(hash, codecs, mac, token, live, found, s)
      ensures permit.Some? ==>
        && Authorizes(hash, codecs, mac, token, live, found, permit.value.state)
        && permit.value == PermitFor(hash, token, OpenSeal(codecs, mac, token).value, live, permit.value.state)
      ensures permit.Some? ==>
        var p, state := OpenSeal(codecs, mac, token).value, permit.value.state;
        && p.schema == RECEIPT_SCHEMA && p.target == live.home.workDir && Describes(hash, codecs, live, state)
        && p.stateDigest == StateDigest(hash, codecs, state) && found.Some? && found.value.syncs
        && found.value.device == p.device && found.value.inode == p.inode
        && SubjectIn(codecs, found.value.tree) == Some(state)
        && CompleteArtifact(hash, codecs, found.value.tree, state)
        && HashArtifact(hash, found.value.tree) == p.artifactDigest
    {
      var unsealed := OpenSeal(codecs, mac, token);
      var state := CaptureState(hash, codecs, live);
      if unsealed.None? || state.None? || !Fits(codecs.state(state.value)) {
        return None;
      }
      var p := unsealed.value;
      if p.schema != RECEIPT_SCHEMA || p.stateDigest != StateDigest(hash, codecs, state.value)
         || p.target != live.home.workDir {
        return None;
      }
      var ok := CheckArtifact(hash, codecs, found, state.value, p.device, p.inode, p.artifactDigest);
      if !ok {
        return None;
      }
      return Some(PermitFor(hash, token, p, live, state.value));
    }
  }

  /** Receipts are read back from their encodings. */
  ghost predicate ReadsReceipts(codecs: Codecs) {
    forall r :: codecs.receipt(r) != [] && codecs.parseReceipt(codecs.receipt(r)) == Some(r)
  }

  /** The token of a payload that can be sealed opens exactly when it is not longer than what
      decoding admits. */
  lemma IssuedTokenOpens(codecs: Codecs, mac: Hash, payload: Payload)
    requires ReadsReceipts(codecs) && Fits(codecs.payload(payload))
    ensures var token := TokenFor(codecs, mac, payload);
      OpenSeal(codecs, mac, token) == Some(payload) <==> |token| <= MAX_RECEIPT_HEX_BYTES
  {
    TokenIsCanonical(codecs, TokenFor(codecs, mac, payload), Sealed(payload, mac(SealPreimage(codecs, payload))));
  }

  /** The token of an issued receipt opens the way to deletion, exactly when it is not too long:
      for the workspace in the sealed state, with the artifact as it was found. */
  lemma IssuedTokenAuthorizes(hash: Hash, codecs: Codecs, mac: Hash, live: Live, after: Live, requested: Place,
                              found: Found, state: State, later: Live)
    requires ReadsReceipts(codecs) && CanIssue(hash, codecs, live, after, requested, Some(found), state)
    requires SubjectIn(codecs, found.tree) == Some(state) && Describes(hash, codecs, later, state)
    requires later.home.workDir == live.home.workDir
    ensures var token := TokenFor(codecs, mac, PayloadFor(hash, codecs, live, requested, found, state));
      Authorizes(hash, codecs, mac, token, later, Some(found), state) <==> |token| <= MAX_RECEIPT_HEX_BYTES
  {
    var p := PayloadFor(hash, codecs, live, requested, found, state);
    IssuedTokenOpens(codecs, mac, p);
  }

  /** The encoding of a receipt spells both of its paths as JSON strings. */
  ghost predicate SpellsPaths(codecs: Codecs) {
    forall r ::
      |codecs.receipt(r)| >= |Escaped(PathText(r.payload.destination))| + |Escaped(PathText(r.payload.target))|
  }

  /** A receipt whose paths take more than 32768 bytes in JSON is issued like any other, and no
      workspace in any state is ever deleted with it. */
  lemma LongReceiptNeverAuthorizes(hash: Hash, codecs: Codecs, mac: Hash, p: Payload)
    requires SpellsPaths(codecs)
    requires 2 * (|Escaped(PathText(p.destination))| + |Escaped(PathText(p.target))|) > MAX_RECEIPT_HEX_BYTES
    ensures |TokenFor(codecs, mac, p)| > MAX_RECEIPT_HEX_BYTES
    ensures forall live, found, state :: !Authorizes(hash, codecs, mac, TokenFor(codecs, mac, p), live, found, state)
  {
    assert |codecs.receipt(Sealed(p, mac(SealPreimage(codecs, p))))|
        >= |Escaped(PathText(p.destination))| + |Escaped(PathText(p.target))|;
  }

  // ---------- deleting ----------

  datatype CleanupError = ReceiptRefused | Failed | OutcomeUnknown

  /** Which of the last calls work: the target can be inspected, its path identity holds, the
      removal completes, its parent syncs, the tombstone is written. */
  datatype CleanupCalls = CleanupCalls(inspect: bool, identity: bool, remove: bool, sync: bool, tombstone: bool)

  datatype Tombstone = Tombstone(home: Home, receipt: Digest, artifact: Digest, destination: Place)

  /** What the last check demands of the reopened workspace and the artifact. */
  ghost predicate Revalidates(hash: Hash, codecs: Codecs, permit: Permit, reopened: Live, found: Option<Found>) {
    && reopened.generation == permit.state.generation
    && HashArtifact(hash, reopened.active) == permit.state.generationDigest
    && SealedArtifact(hash, codecs, found, permit.state, permit.device, permit.inode, permit.artifactDigest)
  }

  class PrivateClone {
    const home: Home
    /** The work directory is untouched. */
    var intact: bool
    var tombstone: Option<Tombstone>

    constructor (home: Home)
      ensures this.home == home && intact && tombstone.None?
    {
      this.home := home;
      intact := true;
      tombstone := None;
    }

    /** Check everything again, immediately before the deletion. */
    method Revalidate(hash: Hash, codecs: Codecs, permit: Permit, reopened: Live, found: Option<Found>)
      returns (ok: bool)
      ensures ok <==> Revalidates(hash, codecs, permit, reopened, found)
    {
      if reopened.generation != permit.state.generation
         || HashArtifact(hash, reopened.active) != permit.state.generationDigest {
        return false;
      }
      ok := CheckArtifact(hash, codecs, found, permit.state, permit.device, permit.inode, permit.artifactDigest);
    }

    /** Delete the workspace of a permit.  `reopened` is what the last reopening finds, if it
        works.  The deletion starts exactly when the permit is for this workspace, everything
        still holds and the target is in place; a refusal or a failure before that leaves the
        workspace untouched, and any failure after it is an unknown outcome. */
    method Delete(hash: Hash, codecs: Codecs, permit: Permit, reopened: Option<Live>, found: Option<Found>,
                  calls: CleanupCalls)
      returns (r: Result<(), CleanupError>)
      requires intact
      modifies this
      ensures !intact <==>
        && permit.home == home && reopened.Some? && Revalidates(hash, codecs, permit, reopened.value, found)
        && calls.inspect && calls.identity
      ensures intact <==> r == Err(ReceiptRefused) || r == Err(Failed)
      ensures r == Err(Failed) ==> reopened.None? || !calls.inspect
      ensures permit.home != home ==> r == Err(ReceiptRefused)
      ensures r.Ok? <==> !intact && calls.remove && calls.sync && calls.tombstone
      ensures tombstone == (if r.Ok?
        then Some(Tombstone(home, permit.receipt, permit.artifactDigest, permit.destination)) else old(tombstone))
    {
      if permit.home != home {
        return Err(ReceiptRefused);
      }
      if reopened.None? {
        return Err(Failed);
      }
      var ok := Revalidate(hash, codecs, permit, reopened.value, found);
      if !ok {
        return Err(ReceiptRefused);
      }
      if !calls.inspect {
        return Err(Failed);
      }
      if !calls.identity {
        return Err(ReceiptRefused);
      }
      intact := false;
      if !calls.remove || !calls.sync || !calls.tombstone {
        return Err(OutcomeUnknown);
      }
      tombstone := Some(Tombstone(home, permit.receipt, permit.artifactDigest, permit.destination));
      return Ok(());
    }
  }

  // ---------- from issue to deletion ----------

  ghost predicate SameTree(hash: Hash, a: Forest, b: Forest) {
    a == b || Collide(hash, ArtifactPreimage(a), ArtifactPreimage(b))
  }

  /** The kept journal is the live one, and all its objects are kept with it. */
  ghost predicate JournalIsKept(hash: Hash, codecs: Codecs, tree: Forest, state: State, live: Live) {
    exists ops :: SalvagedAs(hash, codecs, tree, state, ops) && JournalIsThis(hash, codecs, live.active, ops)
  }

  ghost predicate JournalIsThis(hash: Hash, codecs: Codecs, active: Forest, ops: seq<JournalOp>) {
    forall own :: JournalReads(hash, codecs, active, own) ==>
      own == ops || Collide(hash, TreePreimage(own), TreePreimage(ops))
  }

  /** What stays behind when the workspace is deleted: apart from it, the tree that was sealed,
      of the state that was sealed, with the generation being deleted and the whole journal and
      objects of the workspace that was authorised; or else two preimages with one digest. */
  ghost predicate SafelyKept(hash: Hash, codecs: Codecs, i: Issuance, tree: Forest, state: State, live: Live,
                             reopened: Live) {
    && i.target == live.home.workDir && Apart(i.destination, i.target)
    && SameTree(hash, tree, i.tree)
    && (state == i.state || StatesCollide(hash, codecs, state, i.state))
    && Child(tree, GENERATION).Some? && SameTree(hash, Child(tree, GENERATION).value, reopened.active)
    && JournalIsKept(hash, codecs, tree, state, live)
  }

  lemma KeptJournal(hash: Hash, codecs: Codecs, tree: Forest, state: State, live: Live)
    requires Salvageable(hash, codecs, tree, state) && Describes(hash, codecs, live, state)
    ensures JournalIsKept(hash, codecs, tree, state, live)
  {
    var ops :| SalvagedAs(hash, codecs, tree, state, ops);
    var described :| JournalReads(hash, codecs, live.active, described) && state == StateFor(hash, live, described);
    forall own | JournalReads(hash, codecs, live.active, own)
      ensures own == ops || Collide(hash, TreePreimage(own), TreePreimage(ops))
    {
      JournalReadsOnce(hash, codecs, live.active, own, described);
      TreeBindsOps(hash, own, ops);
    }
    assert JournalIsThis(hash, codecs, live.active, ops);
  }

  lemma KeptGeneration(hash: Hash, codecs: Codecs, tree: Tree, state: State, reopened: Live)
    requires Salvageable(hash, codecs, tree, state) && HashArtifact(hash, reopened.active) == state.generationDigest
    ensures Child(tree, GENERATION).Some? && SameTree(hash, Child(tree, GENERATION).value, reopened.active)
  {
    var ops :| SalvagedAs(hash, codecs, tree, state, ops);
    ChildIsTree(tree, GENERATION);
    ArtifactDigestBinds(hash, Child(tree, GENERATION).value, reopened.active);
  }

  /** Whenever a deletion starts under a receipt that was issued, everything is safely kept. */
  lemma DeletionIsSafe(hash: Hash, codecs: Codecs, mac: Hash, token: string, p: Payload, i: Issuance, live: Live,
                       found: Option<Found>, state: State, reopened: Live, later: Found)
    requires Faithful(codecs) && IssuedFor(hash, codecs, p, i) && OpenSeal(codecs, mac, token) == Some(p)
    requires Authorizes(hash, codecs, mac, token, live, found, state)
    requires Revalidates(hash, codecs, PermitFor(hash, token, p, live, state), reopened, Some(later))
    ensures SafelyKept(hash, codecs, i, later.tree, state, live, reopened)
  {
    OverlapExactly(i.destination, i.target);
    ArtifactDigestBinds(hash, later.tree, i.tree);
    StateDigestBinds(hash, codecs, state, i.state);
    KeptGeneration(hash, codecs, later.tree, state, reopened);
    KeptJournal(hash, codecs, later.tree, state, live);
  }

  lemma DescribesOnce(hash: Hash, codecs: Codecs, live: Live, s: State, t: State)
    requires Describes(hash, codecs, live, s) && Describes(hash, codecs, live, t)
    ensures s == t
  {
    var a :| JournalReads(hash, codecs, live.active, a) && s == StateFor(hash, live, a);
    var b :| JournalReads(hash, codecs, live.active, b) && t == StateFor(hash, live, b);
    JournalReadsOnce(hash, codecs, live.active, a, b);
  }

  /** The token is good for this workspace, everything holds again at the last check, and the
      target can be inspected and is in place. */
  ghost predicate MayDelete(authority: PreservationAuthority, token: string, live: Live, found: Option<Found>,
                            reopened: Option<Live>, later: Option<Found>, calls: CleanupCalls)
  {
    && reopened.Some? && calls.inspect && calls.identity
    && exists s ::
         && Authorizes(authority.hash, authority.codecs, authority.mac, token, live, found, s)
         && Revalidates(authority.hash, authority.codecs,
              PermitFor(authority.hash, token, OpenSeal(authority.codecs, authority.mac, token).value, live, s),
              reopened.value, later)
  }

  function TombstoneFor(home: Home, receipt: Digest, p: Payload): Tombstone {
    Tombstone(home, receipt, p.artifactDigest, p.destination)
  }

  /** Safe cleanup, end to end: a deletion starts only under a token whose seal is valid.  If the
      receipt was issued, everything the workspace held is safely kept apart from it; if not, the
      token is a forgery of the keyed digest. */
  method CleanUp(authority: PreservationAuthority, token: string, clone: PrivateClone, live: Live, found: Option<Found>,
                 reopened: Option<Live>, later: Option<Found>, calls: CleanupCalls)
    returns (r: Result<(), CleanupError>, ghost payload: Option<Payload>, ghost state: Option<State>)
    requires Faithful(authority.codecs) && authority.Valid() && clone.intact && live.home == clone.home
    modifies clone
    ensures clone.intact <==> r == Err(ReceiptRefused) || r == Err(Failed)
    ensures !clone.intact <==> MayDelete(authority, token, live, found, reopened, later, calls)
    ensures r.Ok? <==> !clone.intact && calls.remove && calls.sync && calls.tombstone
    ensures !clone.intact ==>
      && payload.Some? && state.Some? && reopened.Some? && later.Some?
      && OpenSeal(authority.codecs, authority.mac, token) == payload
      && (if payload.value in authority.issued
          then SafelyKept(authority.hash, authority.codecs, authority.issued[payload.value], later.value.tree,
                          state.value, live, reopened.value)
          else Forged(authority.codecs, authority.mac, token, payload.value, authority.issued))
    ensures r.Ok? ==> clone.tombstone == Some(TombstoneFor(clone.home, authority.hash(Ascii(token)), payload.value))
  {
    payload, state := None, None;
    var permit := authority.AuthorizeCleanup(token, live, found);
    if permit.None? {
      return Err(ReceiptRefused), payload, state;
    }
    forall s | Describes(authority.hash, authority.codecs, live, s) ensures s == permit.value.state {
      DescribesOnce(authority.hash, authority.codecs, live, s, permit.value.state);
    }
    r := clone.Delete(authority.hash, authority.codecs, permit.value, reopened, later, calls);
    payload, state := OpenSeal(authority.codecs, authority.mac, token), Some(permit.value.state);
    if !clone.intact {
      if payload.value in authority.issued {
        DeletionIsSafe(authority.hash, authority.codecs, authority.mac, token, payload.value,
                       authority.issued[payload.value], live, found, state.value, reopened.value, later.value);
      } else {
        UnissuedIsForged(authority.codecs, authority.mac, token, payload.value, authority.issued);
      }
    }
  }
}
