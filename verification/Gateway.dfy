/** Settling through the authority gateway, aborting before execution, and finishing a mutation. */
module Gateway {
  import opened Framing
  import opened Names
  import opened Ledger

  datatype Path = Kernel | ReceiptLocal

  /** The online checker's acknowledgment of a settlement. */
  datatype Acknowledgment = Acknowledgment(mutationId: string, reservationId: string, digest: string,
    fingerprint: Digest)

  type Fingerprint = (Subject, Outcome, string, nat) -> Digest

  /** What a settlement meets: the clock, the checker's answer, the ledger calls. */
  datatype SettlementCalls = SettlementCalls(now: Option<nat>, answer: Option<Acknowledgment>, settle: SettleCalls)

  predicate Acknowledges(seal: Fingerprint, answer: Option<Acknowledgment>, subject: Subject, outcome: Outcome,
                         digest: string, at: nat) {
    answer == Some(Acknowledgment(subject.mutationId, subject.reservationId, digest,
      seal(subject, outcome, digest, at)))
  }

  /** The settlement gets as far as the ledger. */
  predicate Reaches(seal: Fingerprint, subject: Subject, outcome: Outcome, digest: string, path: Path,
                    calls: SettlementCalls) {
    && calls.now.Some? && IsDigestName(digest)
    && (path == Kernel ==> Acknowledges(seal, calls.answer, subject, outcome, digest, calls.now.value))
  }

  function SettleThrough(seal: Fingerprint, b: Book, subject: Subject, outcome: Outcome, digest: string, path: Path,
                         calls: SettlementCalls): (Book, bool)
  {
    if !Reaches(seal, subject, outcome, digest, path, calls) then (b, false)
    else
      var (after, answer) := Settle(b, subject, outcome, digest, calls.now.value, calls.settle);
      (after, answer.Ok?)
  }

  /** Refuse a permit before execution: settle as aborted, and when that fails try to
      reserve again so that the in-flight record latches the ledger. */
  function Abort(seal: Fingerprint, b: Book, subject: Subject, digest: string, path: Path,
                 calls: SettlementCalls, latch: ReserveCalls): (Book, bool)
  {
    var (after, aborted) := SettleThrough(seal, b, subject, Aborted, digest, path, calls);
    if aborted then (after, true) else (Reserve(after, subject, latch).0, false)
  }

  /** A permit is out: this process reserved the id and nothing settled it yet. */
  predicate Outstanding(b: Book, subject: Subject) {
    && !Frozen(b.recovery) && ValidSubject(subject) && subject.mutationId in b.owned
    && RecordName(subject.mutationId) in b.shelf.files
    && LoadRecord(b.shelf.files[RecordName(subject.mutationId)]) == Some(Loaded(subject, None))
  }

  predicate RecordSays(files: Files, subject: Subject, outcome: Outcome, digest: string, at: nat) {
    && RecordName(subject.mutationId) in files
    && LoadRecord(files[RecordName(subject.mutationId)])
         == Some(Loaded(subject, Some(MutationResult(subject, outcome, digest, at))))
  }

  /** A settlement that reaches the ledger with an acceptable time either succeeds or freezes it. */
  predicate Decides(seal: Fingerprint, subject: Subject, outcome: Outcome, digest: string, path: Path,
                    calls: SettlementCalls) {
    Reaches(seal, subject, outcome, digest, path, calls) && calls.now.value <= MAX_SAFE_INTEGER
  }

  lemma SettleThroughDecides(seal: Fingerprint, b: Book, subject: Subject, outcome: Outcome, digest: string, path: Path,
                             calls: SettlementCalls)
    requires Outstanding(b, subject)
    ensures var (after, ok) := SettleThrough(seal, b, subject, outcome, digest, path, calls);
      && (ok ==>
            Decides(seal, subject, outcome, digest, path, calls) &&
            RecordSays(after.shelf.files, subject, outcome, digest, calls.now.value))
      && (ok && outcome != Unknown ==> after.recovery == b.recovery)
      && (ok && outcome == Unknown ==> Frozen(after.recovery))
      && (!ok ==> (Frozen(after.recovery) <==> Decides(seal, subject, outcome, digest, path, calls)))
      && (!ok && !Frozen(after.recovery) ==> after == b)
  {
    if Reaches(seal, subject, outcome, digest, path, calls) {
      SettleKeeps(b, subject, outcome, digest, calls.now.value, calls.settle);
    }
  }

  /** A settlement of an outstanding reservation succeeds exactly when the clock and the digest are
      acceptable, on the Kernel path the acknowledgment is equal in every bound field, the record
      can be read, and the append is reported. */
  lemma SettleSucceedsExactly(seal: Fingerprint, b: Book, subject: Subject, outcome: Outcome, digest: string,
                              path: Path, calls: SettlementCalls)
    requires Outstanding(b, subject)
    ensures SettleThrough(seal, b, subject, outcome, digest, path, calls).1 <==>
      && calls.now.Some? && calls.now.value <= MAX_SAFE_INTEGER && IsDigestName(digest)
      && (path == Kernel ==>
            && calls.answer.Some? && calls.answer.value.mutationId == subject.mutationId
            && calls.answer.value.reservationId == subject.reservationId && calls.answer.value.digest == digest
            && calls.answer.value.fingerprint == seal(subject, outcome, digest, calls.now.value))
      && calls.settle.read && calls.settle.append.reported
  {
    if calls.now.Some? {
      SettleAnswersExactly(b, subject, outcome, digest, calls.now.value, calls.settle);
    }
  }

  /** Refusal after reservation has two outcomes only: the record is durably Aborted and the
      ledger as writable as before, or the ledger is frozen.  It holds exactly when the
      settlement gets to decide the record or the second exclusive create reports that the
      record already exists; any other create error leaves an in-flight record unlatched. */
  lemma RefusalHasTwoOutcomes(seal: Fingerprint, b: Book, subject: Subject, digest: string, path: Path,
                              calls: SettlementCalls, latch: ReserveCalls)
    requires Outstanding(b, subject)
    ensures var (after, aborted) := Abort(seal, b, subject, digest, path, calls, latch);
      var durablyAborted := calls.now.Some? && RecordSays(after.shelf.files, subject, Aborted, digest, calls.now.value)
                            && after.recovery == b.recovery;
      && (aborted ==> durablyAborted)
      && (!aborted ==> !durablyAborted)
      && ((durablyAborted || Frozen(after.recovery)) <==>
            (Decides(seal, subject, Aborted, digest, path, calls) || latch.create))
      && (aborted ==>
            RecordName(subject.mutationId) in after.shelf.files &&
            Terminal(RecordName(subject.mutationId), after.shelf.files[RecordName(subject.mutationId)]))
  {
    SettleThroughDecides(seal, b, subject, Aborted, digest, path, calls);
    var (middle, aborted) := SettleThrough(seal, b, subject, Aborted, digest, path, calls);
    if !aborted {
      ReserveKeeps(middle, subject, latch);
    }
  }

  /** A well-formed subject. */
  function SampleSubject(): Subject {
    var digest := seq(64, _ => '0');
    Subject(digest, digest, "mut_" + digest, "rsv_" + digest, ApplyPatch, digest, "rep_" + digest, "wsp_" + digest, 1,
            digest, "atm_" + digest, 1, 1, 0, digest, digest)
  }

  /** The failing input: a fresh reservation, a refusal whose clock fails, and a second create
      that fails with another error than "already exists".  The record stays in flight and the
      ledger stays writable. */
  lemma UnlatchedRefusal(seal: Fingerprint, digest: string, path: Path, latch: ReserveCalls)
    requires !latch.create
    ensures var works := ReserveCalls(true, true, Append(Whole, true), true);
      var (b, answer) := Reserve(Book(EMPTY_SHELF, {}, CLEAN), SampleSubject(), works);
      var silent := SettlementCalls(None, None, SettleCalls(true, Append(Whole, true)));
      && answer == Ok(Fresh) && Outstanding(b, SampleSubject())
      && Abort(seal, b, SampleSubject(), digest, path, silent, latch) == (b, false)
  {
    var subject := SampleSubject();
    assert subject.mutationId[4..] == subject.envelopeDigest && subject.reservationId[4..] == subject.envelopeDigest;
    assert subject.repositoryId[4..] == subject.envelopeDigest && subject.workspaceId[4..] == subject.envelopeDigest;
    assert subject.attemptId[4..] == subject.envelopeDigest;
    ReserveKeeps(Book(EMPTY_SHELF, {}, CLEAN), subject, ReserveCalls(true, true, Append(Whole, true), true));
  }

  // ---------- finishing ----------

  /** Digest of the exact result payload, per operation and outcome. */
  type ResultDigest = (Operation, Outcome, Bytes) -> string

  datatype Finish = Finish(book: Book, frozen: bool, success: bool)

  /** Settle what the repository returned.  `result` holds the encoded payload, and `encodes`
      says whether it could be encoded; `frozen` is the daemon's latch. */
  function FinishMutation(seal: Fingerprint, digestOf: ResultDigest, b: Book, frozen: bool, subject: Subject,
                          operation: Operation, path: Path, result: Result<Bytes, Bytes>, encodes: bool,
                          calls: SettlementCalls): Finish
  {
    if !encodes then Finish(b, true, false)
    else
      var outcome := if result.Ok? then Committed else Unknown;
      var digest := digestOf(operation, outcome, match result case Ok(p) => p case Err(p) => p);
      var (after, settled) := SettleThrough(seal, b, subject, outcome, digest, path, calls);
      if settled && result.Ok? then Finish(after, frozen, true) else Finish(after, true, false)
  }

  /** Every success is backed by a durable Committed record with the digest of that exact
      payload, on the Kernel path after an acknowledgment equal in every bound field; every
      error leaves the daemon frozen. */
  lemma SuccessIsBacked(seal: Fingerprint, digestOf: ResultDigest, b: Book, frozen: bool, subject: Subject,
                        operation: Operation, path: Path, result: Result<Bytes, Bytes>, encodes: bool,
                        calls: SettlementCalls)
    requires Outstanding(b, subject)
    ensures var f := FinishMutation(seal, digestOf, b, frozen, subject, operation, path, result, encodes, calls);
      && (f.success ==>
            result.Ok? && calls.now.Some? &&
            var digest := digestOf(operation, Committed, result.value);
            && RecordSays(f.book.shelf.files, subject, Committed, digest, calls.now.value)
            && (path == Kernel ==> Acknowledges(seal, calls.answer, subject, Committed, digest, calls.now.value))
            && f.book.recovery == b.recovery && f.frozen == frozen)
      && (!f.success ==> f.frozen)
  {
    if encodes {
      var outcome := if result.Ok? then Committed else Unknown;
      var digest := digestOf(operation, outcome, match result case Ok(p) => p case Err(p) => p);
      SettleThroughDecides(seal, b, subject, outcome, digest, path, calls);
    }
  }

  /** Finishing succeeds exactly when the repository succeeded, its payload could be encoded and
      the settlement of its digest as Committed succeeds. */
  predicate Finishable(seal: Fingerprint, digestOf: ResultDigest, subject: Subject, operation: Operation, path: Path,
                       result: Result<Bytes, Bytes>, encodes: bool, calls: SettlementCalls) {
    && encodes && result.Ok? && calls.now.Some? && calls.now.value <= MAX_SAFE_INTEGER
    && var digest := digestOf(operation, Committed, result.value);
      && IsDigestName(digest) && calls.settle.read && calls.settle.append.reported
      && (path == Kernel ==>
            calls.answer == Some(Acknowledgment(subject.mutationId, subject.reservationId, digest,
              seal(subject, Committed, digest, calls.now.value))))
  }

  lemma FinishSucceedsExactly(seal: Fingerprint, digestOf: ResultDigest, b: Book, frozen: bool, subject: Subject,
                              operation: Operation, path: Path, result: Result<Bytes, Bytes>, encodes: bool,
                              calls: SettlementCalls)
    requires Outstanding(b, subject)
    ensures FinishMutation(seal, digestOf, b, frozen, subject, operation, path, result, encodes, calls).success
       <==> Finishable(seal, digestOf, subject, operation, path, result, encodes, calls)
  {
    var outcome := if result.Ok? then Committed else Unknown;
    var digest := digestOf(operation, outcome, match result case Ok(p) => p case Err(p) => p);
    SettleSucceedsExactly(seal, b, subject, outcome, digest, path, calls);
  }

  // ---------- the digest of a result ----------

  const RESULT_DOMAIN: Bytes := Ascii("bullet-gitd.mutation-result.v1")

  function OperationLabel(operation: Operation): (text: string)
    ensures |text| < 256
  {
    match operation
    case CloneWorkspace => "clone-workspace"
    case ApplyPatch => "apply-patch"
    case MakeCheckpoint => "checkpoint"
    case PrepareCandidate => "prepare-candidate"
    case PreserveWorkspace => "preserve-workspace"
    case CleanupWorkspace => "cleanup-workspace"
  }

  function OutcomeLabel(outcome: Outcome): (text: string)
    ensures |text| < 256
  {
    match outcome case Committed => "committed" case Aborted => "aborted" case Unknown => "unknown"
  }

  function ResultFields(operation: Operation, outcome: Outcome, payload: Bytes): seq<Bytes> {
    [RESULT_DOMAIN, Ascii(OperationLabel(operation)), Ascii(OutcomeLabel(outcome)), payload]
  }

  function DigestOfResult(hash: Bytes -> Digest): ResultDigest {
    (operation: Operation, outcome: Outcome, payload: Bytes) =>
      ToHex(FramedDigest(hash, ResultFields(operation, outcome, payload)))
  }
}
