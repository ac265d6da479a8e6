/** The mutation ledger: one append-only record per mutation id.

  A record that cannot be decoded is `Garbled`; `LedgerBytes` relates records to
  the bytes a torn append leaves.  Each operation is a step on a value and takes
  what the operating system answers as a parameter.
*/
module Ledger {
  import opened Framing
  import opened Names

  const SCHEMA_VERSION := 1
  const MAX_SAFE_INTEGER := 9_007_199_254_740_991
  const MAX_LEDGER_RECORDS := 4096
  const USIZE_MAX := TWO_TO_THE_64 - 1

  datatype Operation =
    | CloneWorkspace | ApplyPatch | MakeCheckpoint | PrepareCandidate | PreserveWorkspace | CleanupWorkspace

  datatype Subject = Subject(
    envelopeDigest: string, tokenNonce: string, mutationId: string, reservationId: string, operation: Operation,
    requestDigest: string, repositoryId: string, workspaceId: string, workspaceGeneration: nat, workspaceNonce: string,
    attemptId: string, attemptFence: nat, authorityEpoch: nat, freezeGeneration: nat,
    permitNonce: string, permitDigest: string)

  predicate ValidId(value: string, prefix: string) {
    prefix <= value && IsDigestName(value[|prefix|..])
  }

  predicate ValidCounter(value: nat) {
    0 < value <= MAX_SAFE_INTEGER
  }

  predicate ValidSubject(s: Subject) {
    && IsDigestName(s.envelopeDigest) && IsDigestName(s.tokenNonce)
    && ValidId(s.mutationId, "mut_") && ValidId(s.reservationId, "rsv_") && IsDigestName(s.requestDigest)
    && ValidId(s.repositoryId, "rep_") && ValidId(s.workspaceId, "wsp_") && ValidCounter(s.workspaceGeneration)
    && IsDigestName(s.workspaceNonce) && ValidId(s.attemptId, "atm_") && ValidCounter(s.attemptFence)
    && ValidCounter(s.authorityEpoch) && s.freezeGeneration <= MAX_SAFE_INTEGER
    && IsDigestName(s.permitNonce) && IsDigestName(s.permitDigest)
  }

  /** The value is this prefix and the hexadecimal text of a digest. */
  ghost predicate IsIdOf(value: string, prefix: string) {
    exists d: Digest :: value == prefix + ToHex(d)
  }

  lemma ValidIdExactly(value: string, prefix: string)
    ensures ValidId(value, prefix) <==> IsIdOf(value, prefix)
  {
    if ValidId(value, prefix) {
      DigestNameExact(value[|prefix|..]);
      var d: Digest :| value[|prefix|..] == ToHex(d);
      assert value == prefix + ToHex(d);
    }
    forall d: Digest | value == prefix + ToHex(d) ensures ValidId(value, prefix) {
      DigestNameExact(ToHex(d));
      assert value[|prefix|..] == ToHex(d);
    }
  }

  function DigestFields(s: Subject): seq<string> {
    [s.envelopeDigest, s.tokenNonce, s.requestDigest, s.workspaceNonce, s.permitNonce, s.permitDigest]
  }

  /** The ids of a subject, each with the prefix of its kind. */
  function IdFields(s: Subject): seq<(string, string)> {
    [(s.mutationId, "mut_"), (s.reservationId, "rsv_"), (s.repositoryId, "rep_"), (s.workspaceId, "wsp_"),
      (s.attemptId, "atm_")]
  }

  function CounterFields(s: Subject): seq<nat> {
    [s.workspaceGeneration, s.attemptFence, s.authorityEpoch]
  }

  /** Exactly these subjects are valid: digests in hexadecimal, ids of their kind, counters from 1,
      and one counter from 0, within the integers that JSON keeps exact. */
  lemma ValidSubjectExactly(s: Subject)
    ensures ValidSubject(s) <==>
      && (forall i :: 0 <= i < 6 ==> IsIdOf(DigestFields(s)[i], ""))
      && (forall i :: 0 <= i < 5 ==> IsIdOf(IdFields(s)[i].0, IdFields(s)[i].1))
      && (forall i :: 0 <= i < 3 ==> 1 <= CounterFields(s)[i] <= MAX_SAFE_INTEGER)
      && s.freezeGeneration <= MAX_SAFE_INTEGER
  {
    ListedSubject(s);
    forall i | 0 <= i < 6 ensures IsDigestName(DigestFields(s)[i]) <==> IsIdOf(DigestFields(s)[i], "") {
      ValidIdExactly(DigestFields(s)[i], "");
      assert DigestFields(s)[i][0..] == DigestFields(s)[i];
    }
    forall i | 0 <= i < 5
      ensures ValidId(IdFields(s)[i].0, IdFields(s)[i].1) <==> IsIdOf(IdFields(s)[i].0, IdFields(s)[i].1)
    {
      ValidIdExactly(IdFields(s)[i].0, IdFields(s)[i].1);
    }
  }

  lemma ListedSubject(s: Subject)
    ensures ValidSubject(s) <==>
      && (forall i :: 0 <= i < 6 ==> IsDigestName(DigestFields(s)[i]))
      && (forall i :: 0 <= i < 5 ==> ValidId(IdFields(s)[i].0, IdFields(s)[i].1))
      && (forall i :: 0 <= i < 3 ==> 1 <= CounterFields(s)[i] <= MAX_SAFE_INTEGER)
      && s.freezeGeneration <= MAX_SAFE_INTEGER
  {
    var digests, ids, counters := DigestFields(s), IdFields(s), CounterFields(s);
    assert digests[0] == s.envelopeDigest && digests[1] == s.tokenNonce && digests[2] == s.requestDigest
      && digests[3] == s.workspaceNonce && digests[4] == s.permitNonce && digests[5] == s.permitDigest;
    assert ids[0].0 == s.mutationId && ids[1].0 == s.reservationId && ids[2].0 == s.repositoryId
      && ids[3].0 == s.workspaceId && ids[4].0 == s.attemptId;
    assert counters[0] == s.workspaceGeneration && counters[1] == s.attemptFence && counters[2] == s.authorityEpoch;
  }

  datatype Outcome = Committed | Aborted | Unknown

  datatype LedgerEvent =
    | Reserved(schema: nat, subject: Subject)
    | Settled(schema: nat, subject: Subject, outcome: Outcome, digest: string, at: nat)

  datatype MutationResult = MutationResult(subject: Subject, outcome: Outcome, digest: string, at: nat)

  datatype Content = Events(events: seq<LedgerEvent>) | Garbled

  datatype Loaded = Loaded(subject: Subject, result: Option<MutationResult>)

  function LoadRecord(c: Content): Option<Loaded> {
    if c.Garbled? || |c.events| == 0 || |c.events| > 2 then None
    else
      match c.events[0]
      case Settled(_, _, _, _, _) => None
      case Reserved(schema, subject) =>
        if schema != SCHEMA_VERSION || !ValidSubject(subject) then None
        else if |c.events| == 1 then Some(Loaded(subject, None))
        else
          match c.events[1]
          case Reserved(_, _) => None
          case Settled(settledSchema, settled, outcome, digest, at) =>
            if settledSchema != SCHEMA_VERSION || settled != subject || at > MAX_SAFE_INTEGER
              || !IsDigestName(digest) then None
            else Some(Loaded(subject, Some(MutationResult(subject, outcome, digest, at))))
  }

  /** Exactly two contents read as a record: one reservation, or a reservation and its settlement. */
  lemma LoadRecordExactly(c: Content, subject: Subject, result: Option<MutationResult>)
    ensures LoadRecord(c) == Some(Loaded(subject, result)) <==>
      && ValidSubject(subject)
      && match result
         case None => c == Events([Reserved(SCHEMA_VERSION, subject)])
         case Some(MutationResult(settled, outcome, digest, at)) =>
           && settled == subject && IsDigestName(digest) && at <= MAX_SAFE_INTEGER
           && c == Events([Reserved(SCHEMA_VERSION, subject), Settled(SCHEMA_VERSION, subject, outcome, digest, at)])
  {
    if c.Events? && |c.events| == 1 {
      assert c.events == [c.events[0]];
    } else if c.Events? && |c.events| == 2 {
      assert c.events == [c.events[0], c.events[1]];
    }
  }

  function RecordName(id: string): string {
    id + ".jsonl"
  }

  /** A well-formed record under its own name that ended in Committed or Aborted. */
  predicate Terminal(name: string, c: Content) {
    var loaded := LoadRecord(c);
    && loaded.Some? && name == RecordName(loaded.value.subject.mutationId)
    && loaded.value.result.Some? && loaded.value.result.value.outcome != Unknown
  }

  // ---------- recovery status ----------

  datatype Doubt = InFlight | OutcomeWasUnknown

  datatype Recovery = Recovery(indeterminate: seq<(Subject, Doubt)>, corrupt: nat)

  const CLEAN := Recovery([], 0)

  predicate Frozen(r: Recovery) {
    r.indeterminate != [] || r.corrupt != 0
  }

  function MarkIndeterminate(r: Recovery, subject: Subject, doubt: Doubt): (marked: Recovery)
    ensures Frozen(marked)
  {
    r.(indeterminate := r.indeterminate + [(subject, doubt)])
  }

  /** Count one more corrupt record; the counter saturates, so it never returns to zero. */
  function MarkCorrupt(r: Recovery): (marked: Recovery)
    ensures Frozen(marked) && marked.indeterminate == r.indeterminate
    ensures r.corrupt <= USIZE_MAX ==> r.corrupt <= marked.corrupt <= USIZE_MAX
  {
    r.(corrupt := if r.corrupt < USIZE_MAX then r.corrupt + 1 else r.corrupt)
  }

  /** The entry is a record under its own name that is in this doubt about this subject. */
  predicate InDoubt(e: (string, Content), subject: Subject, doubt: Doubt) {
    && e.0 == RecordName(subject.mutationId) && LoadRecord(e.1).Some? && LoadRecord(e.1).value.subject == subject
    && match LoadRecord(e.1).value.result
       case None => doubt == InFlight
       case Some(result) => result.outcome == Unknown && doubt == OutcomeWasUnknown
  }

  /** The entry does not read as a record under its own name. */
  predicate IsCorrupt(e: (string, Content)) {
    LoadRecord(e.1).None? || e.0 != RecordName(LoadRecord(e.1).value.subject.mutationId)
  }

  /** What the scan makes of one more entry. */
  function Marked(r: Recovery, e: (string, Content)): Recovery {
    var record := LoadRecord(e.1);
    if record.None? || e.0 != RecordName(record.value.subject.mutationId) then MarkCorrupt(r)
    else
      match record.value.result
      case None => MarkIndeterminate(r, record.value.subject, InFlight)
      case Some(result) =>
        if result.outcome == Unknown then MarkIndeterminate(r, record.value.subject, OutcomeWasUnknown) else r
  }

  ghost predicate SomeInDoubt(entries: seq<(string, Content)>, s: Subject, doubt: Doubt) {
    exists e :: e in entries && InDoubt(e, s, doubt)
  }

  ghost predicate SomeCorrupt(entries: seq<(string, Content)>) {
    exists e :: e in entries && IsCorrupt(e)
  }

  /** The status names exactly the records in doubt, and is corrupt exactly when some entry is, or
      there were too many. */
  ghost predicate Reports(r: Recovery, entries: seq<(string, Content)>, excess: bool) {
    && (forall s, doubt :: (s, doubt) in r.indeterminate <==> SomeInDoubt(entries, s, doubt))
    && (r.corrupt != 0 <==> excess || SomeCorrupt(entries))
  }

  lemma MarkedReports(r: Recovery, entries: seq<(string, Content)>, e: (string, Content), excess: bool)
    requires Reports(r, entries, excess)
    ensures Reports(Marked(r, e), entries + [e], excess)
  {
    var more := entries + [e];
    assert forall x :: x in more <==> x in entries || x == e;
    forall s, doubt
      ensures SomeInDoubt(more, s, doubt) <==> SomeInDoubt(entries, s, doubt) || InDoubt(e, s, doubt)
      ensures (s, doubt) in Marked(r, e).indeterminate <==> (s, doubt) in r.indeterminate || InDoubt(e, s, doubt)
    {
      assert e in more;
    }
    assert SomeCorrupt(more) <==> SomeCorrupt(entries) || IsCorrupt(e) by {
      assert e in more;
    }
  }

  lemma ReportsTerminal(r: Recovery, entries: seq<(string, Content)>)
    requires Reports(r, entries, false)
    ensures !Frozen(r) <==> forall e :: e in entries ==> Terminal(e.0, e.1)
  {
    forall e | e in entries && !Terminal(e.0, e.1) ensures Frozen(r) {
      if !IsCorrupt(e) {
        var loaded := LoadRecord(e.1).value;
        var doubt := if loaded.result.None? then InFlight else OutcomeWasUnknown;
        assert InDoubt(e, loaded.subject, doubt) && SomeInDoubt(entries, loaded.subject, doubt);
      }
    }
    if r.indeterminate != [] {
      var x := r.indeterminate[0];
      assert (x.0, x.1) in r.indeterminate && SomeInDoubt(entries, x.0, x.1);
    }
  }

  /** Rebuild the freeze latch from a directory listing, in whatever order it is read.

      The result is writable exactly when there are at most 4096 entries, each a
      well-formed record under its own name ending in Committed or Aborted; and it names
      exactly the records in doubt. */
  method ScanRecovery(listing: seq<(string, Content)>) returns (status: Recovery)
    ensures !Frozen(status) <==>
      |listing| <= MAX_LEDGER_RECORDS && forall e :: e in listing ==> Terminal(e.0, e.1)
    ensures |listing| <= MAX_LEDGER_RECORDS ==> Reports(status, listing, false)
  {
    status := CLEAN;
    var entries := listing;
    var excess := |listing| > MAX_LEDGER_RECORDS;
    if excess {
      status := MarkCorrupt(status);
      entries := listing[..MAX_LEDGER_RECORDS];
    }
    for n := 0 to |entries|
      invariant Reports(status, entries[..n], excess)
    {
      MarkedReports(status, entries[..n], entries[n], excess);
      assert entries[..n + 1] == entries[..n] + [entries[n]];
      var record := LoadRecord(entries[n].1);
      if record.None? || entries[n].0 != RecordName(record.value.subject.mutationId) {
        status := MarkCorrupt(status);
      } else if record.value.result.None? {
        status := MarkIndeterminate(status, record.value.subject, InFlight);
      } else if record.value.result.value.outcome == Unknown {
        status := MarkIndeterminate(status, record.value.subject, OutcomeWasUnknown);
      }
    }
    assert entries[..|entries|] == entries;
    if !excess {
      ReportsTerminal(status, listing);
    }
  }

  // ---------- reserve and settle ----------

  type Files = map<string, Content>

  /** The ledger directory: what its files hold, which names and which contents no crash can
      take away. */
  datatype Shelf = Shelf(files: Files, durable: set<string>, firm: set<string>)

  const EMPTY_SHELF := Shelf(map[], {}, {})

  /** What a crash may leave of a directory that is itself still there. */
  ghost predicate ShelfCrash(s: Shelf, t: Shelf) {
    && s.durable * s.files.Keys <= t.files.Keys <= s.files.Keys
    && (forall name :: name in t.files && name in s.firm ==> t.files[name] == s.files[name])
    && t.durable == t.files.Keys && t.firm == t.files.Keys
  }

  datatype Book = Book(shelf: Shelf, owned: set<string>, recovery: Recovery)

  /** How much of an appended event reached the file. */
  datatype Reach = Nothing | Torn | Whole

  function Appended(c: Content, e: LedgerEvent, reach: Reach): Content {
    match reach
    case Nothing => c
    case Torn => Garbled
    case Whole => if c.Garbled? then Garbled else Events(c.events + [e])
  }

  /** An append: what reached the file, and whether write and sync reported success. */
  datatype Append = Append(reach: Reach, reported: bool)

  type HonestAppend = a: Append | a.reported ==> a.reach == Whole witness Append(Nothing, false)

  /** One record after an append; a reported append is synced. */
  function Written(s: Shelf, name: string, content: Content, append: HonestAppend): Shelf {
    Shelf(s.files[name := content], s.durable,
          if append.reported then s.firm + {name} else if append.reach.Nothing? then s.firm else s.firm - {name})
  }

  /** After a sync of the directory no crash takes a name away. */
  function SyncNames(s: Shelf): Shelf {
    s.(durable := s.durable + s.files.Keys)
  }

  datatype LedgerError = InvalidSubject | ReplayConflict | OutcomeUnknown | Io

  datatype Disposition = Fresh | Replay(result: MutationResult)

  type Answer = Result<Disposition, LedgerError>

  /** What the system answers during a reservation: whether the exclusive create works
      (`false` is an error other than "already exists"), whether an existing record can be
      read, and how the append and the directory sync end. */
  datatype ReserveCalls = ReserveCalls(create: bool, read: bool, append: HonestAppend, directorySync: bool)

  function Reserve(b: Book, subject: Subject, calls: ReserveCalls): (Book, Answer) {
    var name := RecordName(subject.mutationId);
    if Frozen(b.recovery) then (b, Err(OutcomeUnknown))
    else if !ValidSubject(subject) then (b, Err(InvalidSubject))
    else if !calls.create then (b, Err(Io))
    else if name !in b.shelf.files then
      var content := Appended(Events([]), Reserved(SCHEMA_VERSION, subject), calls.append.reach);
      var written := Written(b.shelf, name, content, calls.append);
      if calls.append.reported && calls.directorySync
        then (Book(SyncNames(written), b.owned + {subject.mutationId}, b.recovery), Ok(Fresh))
        else (Book(written, b.owned, MarkCorrupt(b.recovery)), Err(OutcomeUnknown))
    else
      var loaded := if calls.read then LoadRecord(b.shelf.files[name]) else None;
      if loaded.None? then (b.(recovery := MarkCorrupt(b.recovery)), Err(OutcomeUnknown))
      else if loaded.value.subject != subject then (b, Err(ReplayConflict))
      else
        match loaded.value.result
        case Some(result) => (b, Ok(Replay(result)))
        case None => (b.(recovery := MarkIndeterminate(b.recovery, subject, InFlight)), Err(OutcomeUnknown))
  }

  datatype SettleCalls = SettleCalls(read: bool, append: HonestAppend)

  function Settle(b: Book, subject: Subject, outcome: Outcome, digest: string, at: nat, calls: SettleCalls): (Book,
                  Answer) {
    var name := RecordName(subject.mutationId);
    if Frozen(b.recovery) then (b, Err(OutcomeUnknown))
    else if !ValidSubject(subject) || !IsDigestName(digest) || at > MAX_SAFE_INTEGER then (b, Err(InvalidSubject))
    else
      var loaded := if calls.read && name in b.shelf.files then LoadRecord(b.shelf.files[name]) else None;
      if loaded.None? then (b.(recovery := MarkCorrupt(b.recovery)), Err(OutcomeUnknown))
      else if loaded.value.subject != subject then (b, Err(ReplayConflict))
      else
        var requested := MutationResult(subject, outcome, digest, at);
        match loaded.value.result
        case Some(existing) => if existing == requested then (b, Ok(Replay(existing))) else (b, Err(ReplayConflict))
        case None =>
          if subject.mutationId !in b.owned then (b, Err(OutcomeUnknown))
          else
            var event := Settled(SCHEMA_VERSION, subject, outcome, digest, at);
            var content := Appended(b.shelf.files[name], event, calls.append.reach);
            var written := Book(Written(b.shelf, name, content, calls.append), b.owned - {subject.mutationId},
              b.recovery);
            if !calls.append.reported then (written.(recovery := MarkCorrupt(b.recovery)), Err(OutcomeUnknown))
            else if outcome == Unknown
              then (written.(recovery := MarkIndeterminate(b.recovery, subject, OutcomeWasUnknown)), Ok(Fresh))
              else (written, Ok(Fresh))
  }

  /** Whatever the reservation does, records are never removed and other records never
      change, the latch never opens, and `Fresh` comes only for an id without a record. */
  lemma ReserveKeeps(b: Book, subject: Subject, calls: ReserveCalls)
    ensures var (after, answer) := Reserve(b, subject, calls);
      var name := RecordName(subject.mutationId);
      && b.shelf.files.Keys <= after.shelf.files.Keys <= b.shelf.files.Keys + {name}
      && (forall other :: other in b.shelf.files ==> after.shelf.files[other] == b.shelf.files[other])
      && (Frozen(b.recovery) ==> after == b && answer.Err?)
      && b.shelf.durable <= after.shelf.durable <= b.shelf.durable + after.shelf.files.Keys
      && b.shelf.firm - {name} <= after.shelf.firm && (name in b.shelf.files ==> after.shelf == b.shelf)
      && (answer == Ok(Fresh) <==>
            !Frozen(b.recovery) && ValidSubject(subject) && calls.create && name !in b.shelf.files
            && calls.append.reported && calls.directorySync)
      && (answer == Ok(Fresh) ==>
            && after.shelf.files[name] == Events([Reserved(SCHEMA_VERSION, subject)]) && after.recovery == b.recovery
            && name in after.shelf.durable && name in after.shelf.firm && after.owned == b.owned + {subject.mutationId})
      && (answer != Ok(Fresh) && after.shelf.files != b.shelf.files ==> Frozen(after.recovery))
      && (answer != Ok(Fresh) ==> after.owned == b.owned)
  {
    assert Events([]).events + [Reserved(SCHEMA_VERSION, subject)] == [Reserved(SCHEMA_VERSION, subject)];
  }

  /** Settlement changes at most this one record, and only an in-flight record this
      process reserved; success means the record now says exactly what was asked. */
  lemma SettleKeeps(b: Book, subject: Subject, outcome: Outcome, digest: string, at: nat, calls: SettleCalls)
    ensures var (after, answer) := Settle(b, subject, outcome, digest, at, calls);
      var name := RecordName(subject.mutationId);
      && after.shelf.files.Keys == b.shelf.files.Keys
      && (forall other :: other in b.shelf.files && other != name ==> after.shelf.files[other] == b.shelf.files[other])
      && (name in b.shelf.files && after.shelf.files[name] != b.shelf.files[name] ==>
            subject.mutationId in b.owned && LoadRecord(b.shelf.files[name]) == Some(Loaded(subject, None)))
      && (Frozen(b.recovery) ==> after == b && answer.Err?)
      && (answer.Ok? ==>
            name in after.shelf.files &&
            LoadRecord(after.shelf.files[name]) == Some(Loaded(subject,
              Some(MutationResult(subject, outcome, digest, at)))))
      && (answer.Err? && after.shelf.files != b.shelf.files ==> Frozen(after.recovery))
      && after.owned <= b.owned
  {
  }

  /** What a settlement asks of the ledger before it looks at the record. */
  predicate Settleable(b: Book, subject: Subject, digest: string, at: nat) {
    !Frozen(b.recovery) && ValidSubject(subject) && IsDigestName(digest) && at <= MAX_SAFE_INTEGER
  }

  /** When a settlement succeeds: freshly, exactly for a readable in-flight record of this subject
      that this process reserved, when the append is reported; as a replay, exactly for a record
      that already says what was asked.  It conflicts exactly when the record is another
      subject's or says something else. */
  lemma SettleAnswersExactly(b: Book, subject: Subject, outcome: Outcome, digest: string, at: nat, calls: SettleCalls)
    ensures var (after, answer) := Settle(b, subject, outcome, digest, at, calls);
      var name := RecordName(subject.mutationId);
      var asked := MutationResult(subject, outcome, digest, at);
      var loaded := if calls.read && name in b.shelf.files then LoadRecord(b.shelf.files[name]) else None;
      && (answer == Ok(Fresh) <==>
            Settleable(b, subject, digest, at) && loaded == Some(Loaded(subject, None))
            && subject.mutationId in b.owned && calls.append.reported)
      && (forall result :: answer == Ok(Replay(result)) <==>
            Settleable(b, subject, digest, at) && loaded == Some(Loaded(subject, Some(result))) && result == asked)
      && (answer == Err(ReplayConflict) <==>
            Settleable(b, subject, digest, at) && loaded.Some?
            && (loaded.value.subject != subject
                || (loaded.value.result.Some? && loaded.value.result.value != asked)))
      && (answer == Err(InvalidSubject) <==> !Frozen(b.recovery) && !Settleable(b, subject, digest, at))
      && answer != Err(Io)
      && (answer == Ok(Fresh) ==>
            after.owned == b.owned - {subject.mutationId} && (Frozen(after.recovery) <==> outcome == Unknown))
  {
  }

  /** When a reservation replays, exactly with the result of the record of this very subject, and
      when it conflicts. */
  lemma ReserveAnswersExactly(b: Book, subject: Subject, calls: ReserveCalls)
    ensures var answer := Reserve(b, subject, calls).1;
      var name := RecordName(subject.mutationId);
      var loaded := if calls.read && name in b.shelf.files then LoadRecord(b.shelf.files[name]) else None;
      var asked := !Frozen(b.recovery) && ValidSubject(subject) && calls.create;
      && (forall result :: answer == Ok(Replay(result)) <==> asked && loaded == Some(Loaded(subject, Some(result))))
      && (answer == Err(ReplayConflict) <==> asked && loaded.Some? && loaded.value.subject != subject)
      && (answer == Err(OutcomeUnknown) && !Frozen(b.recovery) ==> Frozen(Reserve(b, subject, calls).0.recovery))
      && (answer == Err(InvalidSubject) <==> !Frozen(b.recovery) && !ValidSubject(subject))
      && (answer == Err(Io) <==> !Frozen(b.recovery) && ValidSubject(subject) && !calls.create)
  {
  }

  /** Settlement takes no name's and no other record's durability away, and this record's only
      together with its contents. */
  lemma SettleKeepsFirm(b: Book, subject: Subject, outcome: Outcome, digest: string, at: nat, calls: SettleCalls)
    ensures var (after, answer) := Settle(b, subject, outcome, digest, at, calls);
      var name := RecordName(subject.mutationId);
      && after.shelf.durable == b.shelf.durable && b.shelf.firm - {name} <= after.shelf.firm
      && (name in b.shelf.files && after.shelf.files[name] == b.shelf.files[name] ==> b.shelf.firm <= after.shelf.firm)
      && (answer.Ok? && name in b.shelf.firm ==> name in after.shelf.firm)
  {
    var name := RecordName(subject.mutationId);
    if name in b.shelf.files && b.shelf.files[name].Events? {
      var events, event := b.shelf.files[name].events, Settled(SCHEMA_VERSION, subject, outcome, digest, at);
      assert |events + [event]| != |events|;
    }
  }
}
