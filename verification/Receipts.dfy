/** Receipt-gated cleanup: one deletion per sealed receipt, and exact replay.

  The mutation id is derived from the receipt and the writer incarnation alone, so
  nothing else a request carries can make a second deletion out of one receipt.
*/
module Receipts {
  import opened Framing
  import opened Names
  import opened Ledger
  import opened Gateway
  import opened DaemonRuns

  const MUTATION_DOMAIN: Bytes := Ascii("bullet-gitd.receipt-mutation-id.v1")
  const RESERVATION_DOMAIN: Bytes := Ascii("bullet-gitd.receipt-reservation-id.v1")
  const NONCE_DOMAIN: Bytes := Ascii("bullet-gitd.receipt-permit-nonce.v1")
  const PERMIT_DOMAIN: Bytes := Ascii("bullet-gitd.receipt-permit-digest.v1")
  const RECEIPT_AUTHORITY_EPOCH := 1

  type Hash = Bytes -> Digest

  /** A verified receipt and the writer it was issued to. */
  datatype Receipt = Receipt(digest: string, attempt: string, fence: nat, nonce: Digest)

  /** What else a cleanup request carries. */
  datatype Request = Request(token: Bytes, fingerprint: Digest, repository: string, workspace: string, generation: nat)

  function DerivedFields(domain: Bytes, r: Receipt): seq<Bytes> {
    [domain, Ascii(r.digest), Ascii(OperationLabel(CleanupWorkspace)), Ascii(r.attempt), Ascii(Decimal(r.fence)),
      Ascii(ToHex(r.nonce))]
  }

  function Derived(hash: Hash, domain: Bytes, r: Receipt): string {
    ToHex(FramedDigest(hash, DerivedFields(domain, r)))
  }

  function MutationId(hash: Hash, r: Receipt): string {
    "mut_" + Derived(hash, MUTATION_DOMAIN, r)
  }

  /** The durable subject of one receipt-gated cleanup. */
  function SubjectFor(hash: Hash, r: Receipt, q: Request): Subject {
    Subject(ToHex(hash(q.token)), r.digest, MutationId(hash, r), "rsv_" + Derived(hash, RESERVATION_DOMAIN, r),
            CleanupWorkspace, ToHex(q.fingerprint), q.repository, q.workspace, q.generation, ToHex(r.nonce),
            r.attempt, r.fence, RECEIPT_AUTHORITY_EPOCH, 0,
            Derived(hash, NONCE_DOMAIN, r), Derived(hash, PERMIT_DOMAIN, r))
  }

  /** One deletion per receipt: over every run, whatever the requests carry (token, request
      fields, deletion time, workspace generation), one sealed receipt and writer reach
      repository execution at most once, unless a machine crash between the two found the entry
      of the ledger directory itself not durable. */
  lemma OneDeletionPerReceipt(hash: Hash, rules: Rules, events: seq<Event>, worlds: seq<World>,
                              i: nat, j: nat, r: Receipt, q: Request, s: Request)
    requires Run(rules, events, worlds) && worlds[0].process.None? && i < j < |events|
    requires Executes(worlds[i], events[i], SubjectFor(hash, r, q).mutationId)
    requires Executes(worlds[j], events[j], SubjectFor(hash, r, s).mutationId)
    ensures Unrooted(events, worlds, i, j)
  {
    AtMostOneExecution(rules, events, worlds, i, j, MutationId(hash, r));
  }

  /** From the moment a receipt's cleanup is executed, some continuation of the run executes a
      cleanup under the same receipt and writer again, whatever its request carries, if and only
      if the entry of the ledger directory is not durable then. */
  lemma DeletesAgainExactly(hash: Hash, rules: Rules, events: seq<Event>, worlds: seq<World>, i: nat, r: Receipt,
                            q: Request, s: Request)
    requires Run(rules, events, worlds) && worlds[0].process.None? && i < |events|
    requires Executes(worlds[i], events[i], SubjectFor(hash, r, q).mutationId)
    ensures CanExecute(rules, worlds[i + 1], SubjectFor(hash, r, s).mutationId) <==> !worlds[i + 1].rooted
  {
    RepeatsExactly(rules, events, worlds, i, MutationId(hash, r));
  }

  /** A later request under a receipt with a settled record gets that record's result exactly
      when its subject is the same; any change conflicts, and nothing on disk moves. */
  lemma LaterRequestReplaysOrConflicts(hash: Hash, b: Book, r: Receipt, q: Request, s: Request, result: MutationResult,
                                       calls: ReserveCalls)
    requires !Frozen(b.recovery) && calls.create && calls.read
    requires ValidSubject(SubjectFor(hash, r, s)) && RecordName(MutationId(hash, r)) in b.shelf.files
    requires LoadRecord(b.shelf.files[RecordName(MutationId(hash, r))]) == Some(Loaded(SubjectFor(hash, r, q),
      Some(result)))
    ensures Reserve(b, SubjectFor(hash, r, s), calls) ==
      (b, if SubjectFor(hash, r, s) == SubjectFor(hash, r, q) then Ok(Replay(result)) else Err(ReplayConflict))
    ensures q.fingerprint != s.fingerprint ==> SubjectFor(hash, r, s) != SubjectFor(hash, r, q)
  {
    FromHexToHex(q.fingerprint);
    FromHexToHex(s.fingerprint);
  }

  /** Two requests under one receipt have one subject exactly when they agree in the digest of the
      token, the fingerprint, the repository, the workspace and the generation. */
  lemma SubjectsAgreeExactly(hash: Hash, r: Receipt, q: Request, s: Request)
    ensures SubjectFor(hash, r, q) == SubjectFor(hash, r, s) <==>
      && hash(q.token) == hash(s.token) && q.fingerprint == s.fingerprint && q.repository == s.repository
      && q.workspace == s.workspace && q.generation == s.generation
  {
    FromHexToHex(q.fingerprint);
    FromHexToHex(s.fingerprint);
    FromHexToHex(hash(q.token));
    FromHexToHex(hash(s.token));
  }

  /** The subject of a cleanup is valid exactly when receipt and request name what they should. */
  lemma SubjectIsValidExactly(hash: Hash, r: Receipt, q: Request)
    ensures ValidSubject(SubjectFor(hash, r, q)) <==>
      && IsIdOf(r.digest, "") && IsIdOf(r.attempt, "atm_") && 1 <= r.fence <= MAX_SAFE_INTEGER
      && IsIdOf(q.repository, "rep_") && IsIdOf(q.workspace, "wsp_") && 1 <= q.generation <= MAX_SAFE_INTEGER
    ensures var subject := SubjectFor(hash, r, q);
      && subject.attemptId == r.attempt && subject.attemptFence == r.fence && subject.workspaceNonce == ToHex(r.nonce)
      && subject.operation == CleanupWorkspace && subject.requestDigest == ToHex(q.fingerprint)
  {
    ValidIdExactly(r.digest, "");
    assert r.digest[0..] == r.digest;
    ValidIdExactly(r.attempt, "atm_");
    ValidIdExactly(q.repository, "rep_");
    ValidIdExactly(q.workspace, "wsp_");
    assert MutationId(hash, r)[4..] == Derived(hash, MUTATION_DOMAIN, r);
    var reservation := "rsv_" + Derived(hash, RESERVATION_DOMAIN, r);
    assert reservation[4..] == Derived(hash, RESERVATION_DOMAIN, r);
  }

  // ---------- what the derived id binds ----------

  predicate Plain(r: Receipt) {
    IsAscii(r.digest) && IsAscii(r.attempt) && |r.digest| < TWO_TO_THE_64 && |r.attempt| < TWO_TO_THE_64
    && |Decimal(r.fence)| < TWO_TO_THE_64
  }

  lemma DerivedFieldsInjective(domain: Bytes, a: Receipt, b: Receipt)
    requires Plain(a) && Plain(b) && DerivedFields(domain, a) == DerivedFields(domain, b)
    ensures a == b
  {
    var f, g := DerivedFields(domain, a), DerivedFields(domain, b);
    assert f[1] == g[1] && f[3] == g[3] && f[4] == g[4] && f[5] == g[5];
    AsciiInjective(a.digest, b.digest);
    AsciiInjective(a.attempt, b.attempt);
    DigitsAreAscii(Decimal(a.fence));
    DigitsAreAscii(Decimal(b.fence));
    AsciiInjective(Decimal(a.fence), Decimal(b.fence));
    DecimalParses(a.fence);
    DecimalParses(b.fence);
    DigitsAreAscii(ToHex(a.nonce));
    DigitsAreAscii(ToHex(b.nonce));
    AsciiInjective(ToHex(a.nonce), ToHex(b.nonce));
    FromHexToHex(a.nonce);
    FromHexToHex(b.nonce);
  }

  /** Two receipts share a mutation id only if they agree in digest, attempt, fence and nonce,
      or their framed preimages collide. */
  lemma MutationIdBinds(hash: Hash, a: Receipt, b: Receipt)
    requires Plain(a) && Plain(b) && MutationId(hash, a) == MutationId(hash, b)
    ensures || a == b
            || Collide(hash, FrameAll(DerivedFields(MUTATION_DOMAIN, a)), FrameAll(DerivedFields(MUTATION_DOMAIN, b)))
  {
    var f, g := DerivedFields(MUTATION_DOMAIN, a), DerivedFields(MUTATION_DOMAIN, b);
    assert MutationId(hash, a)[4..] == MutationId(hash, b)[4..];
    FromHexToHex(FramedDigest(hash, f));
    FromHexToHex(FramedDigest(hash, g));
    DerivedFieldsBind(hash, a, b);
  }

  lemma DerivedFieldsBind(hash: Hash, a: Receipt, b: Receipt)
    requires Plain(a) && Plain(b)
    requires FramedDigest(hash, DerivedFields(MUTATION_DOMAIN, a)) == FramedDigest(hash,
      DerivedFields(MUTATION_DOMAIN, b))
    ensures || a == b
            || Collide(hash, FrameAll(DerivedFields(MUTATION_DOMAIN, a)), FrameAll(DerivedFields(MUTATION_DOMAIN, b)))
  {
    FramedDigestBinds(hash, DerivedFields(MUTATION_DOMAIN, a), DerivedFields(MUTATION_DOMAIN, b));
    if DerivedFields(MUTATION_DOMAIN, a) == DerivedFields(MUTATION_DOMAIN, b) {
      DerivedFieldsInjective(MUTATION_DOMAIN, a, b);
    }
  }

  // ---------- replay ----------

  datatype ReplayAnswer = Returned(payload: Bytes) | Refused | FrozenReplay | Conflict

  /** Rebuild a settled cleanup's payload and return it only if it reproduces the durable digest. */
  function ReplayCleanup(digestOf: ResultDigest, settled: MutationResult, payload: Bytes): ReplayAnswer {
    match settled.outcome
    case Aborted => Refused
    case Unknown => FrozenReplay
    case Committed => if digestOf(CleanupWorkspace, Committed,
      payload) == settled.digest then Returned(payload) else Conflict
  }

  /** A replay refuses exactly what was aborted, freezes exactly on an unknown outcome, returns
      exactly a payload that reproduces the committed digest, and otherwise conflicts. */
  lemma ReplayAnswersExactly(digestOf: ResultDigest, settled: MutationResult, payload: Bytes)
    ensures var answer := ReplayCleanup(digestOf, settled, payload);
      var reproduces := digestOf(CleanupWorkspace, Committed, payload) == settled.digest;
      && (answer == Refused <==> settled.outcome == Aborted)
      && (answer == FrozenReplay <==> settled.outcome == Unknown)
      && (forall p :: answer == Returned(p) <==> settled.outcome == Committed && reproduces && p == payload)
      && (answer == Conflict <==> settled.outcome == Committed && !reproduces)
  {
  }

  /** The digest that a replay compares is the digest that the settlement recorded: the fields that
      the replay writes out are the labels of a committed cleanup. */
  lemma ReplayDigestAgrees(hash: Hash, payload: Bytes)
    ensures DigestOfResult(hash)(CleanupWorkspace, Committed, payload)
         == ToHex(FramedDigest(hash, [Ascii("bullet-gitd.mutation-result.v1"), Ascii("cleanup-workspace"),
                                      Ascii("committed"), payload]))
  {
  }

  /** No two operations and no two outcomes have one label. */
  lemma LabelsDiffer(m: Operation, n: Operation, x: Outcome, y: Outcome)
    ensures Ascii(OperationLabel(m)) == Ascii(OperationLabel(n)) ==> m == n
    ensures Ascii(OutcomeLabel(x)) == Ascii(OutcomeLabel(y)) ==> x == y
  {
    var a, b := Ascii(OperationLabel(m)), Ascii(OperationLabel(n));
    var c, d := Ascii(OutcomeLabel(x)), Ascii(OutcomeLabel(y));
    if a == b {
      assert a[0] == b[0] && a[1] == b[1] && a[3] == b[3];
    }
    if c == d {
      assert c[0] == d[0];
    }
  }

  /** One result digest means one operation, one outcome and one payload, or a collision. */
  lemma ResultDigestBinds(hash: Hash, m: Operation, x: Outcome, p: Buffer, n: Operation, y: Outcome, q: Buffer)
    requires DigestOfResult(hash)(m, x, p) == DigestOfResult(hash)(n, y, q)
    ensures || (m == n && x == y && p == q)
            || Collide(hash, FrameAll(ResultFields(m, x, p)), FrameAll(ResultFields(n, y, q)))
  {
    var f, g := ResultFields(m, x, p), ResultFields(n, y, q);
    FromHexToHex(FramedDigest(hash, f));
    FromHexToHex(FramedDigest(hash, g));
    FramedDigestBinds(hash, f, g);
    LabelsDiffer(m, n, x, y);
    assert f[1] == Ascii(OperationLabel(m)) && g[1] == Ascii(OperationLabel(n));
    assert f[2] == Ascii(OutcomeLabel(x)) && g[2] == Ascii(OutcomeLabel(y)) && f[3] == p && g[3] == q;
  }

  /** Replay never deletes a second time and never invents a result: what it returns is the
      payload that was committed, or two payloads with one digest are exhibited. */
  lemma ReplayReturnsCommittedPayload(hash: Hash, subject: Subject, committed: Buffer, at: nat, rebuilt: Buffer)
    requires var digestOf := DigestOfResult(hash);
      ReplayCleanup(digestOf,
        MutationResult(subject, Committed, digestOf(CleanupWorkspace, Committed, committed), at), rebuilt).Returned?
    ensures || rebuilt == committed
            || Collide(hash, FrameAll(ResultFields(CleanupWorkspace, Committed, rebuilt)),
                             FrameAll(ResultFields(CleanupWorkspace, Committed, committed)))
  {
    ResultDigestBinds(hash, CleanupWorkspace, Committed, rebuilt, CleanupWorkspace, Committed, committed);
  }
}
