/** The ledger, the gateway and the daemon as objects that update their state.

  The ledger directory carries, as ghost state, the run it has been through.  Every call on
  the objects extends that run by steps of the daemon, so what is proved of every run holds
  of every sequence of calls, deaths, crashes and restarts on the objects.
*/
module LedgerStore {
  import opened Framing
  import opened Names
  import D = Durability
  import opened Ledger
  import opened Gateway
  import opened DaemonRuns
  import opened Runs

  const MAX_PERMIT_TTL_MS := 1000

  // ---------- the directory ----------

  class LedgerDirectory {
    var files: Files
    /** Which names, which contents and whether the directory's own entry survive a crash. */
    ghost var durable: set<string>
    ghost var firm: set<string>
    ghost var rooted: bool
    /** The run so far. */
    ghost var events: seq<Event>
    ghost var worlds: seq<World>

    ghost function Contents(): Shelf
      reads this
    {
      Shelf(files, durable, firm)
    }

    /** The run is one of the daemon's, starts without a process and ends in `now`. */
    ghost predicate Reached(rules: Rules, now: World)
      reads this
    {
      Run(rules, events, worlds) && worlds[0].process.None? && worlds[|events|] == now
    }

    /** A directory found at start-up, before any process. */
    constructor (files: Files, ghost durable: set<string>, ghost firm: set<string>, ghost rooted: bool)
      ensures this.files == files && Contents() == Shelf(files, durable, firm) && this.rooted == rooted
      ensures events == [] && forall rules :: Reached(rules, World(Contents(), rooted, None))
    {
      this.files := files;
      this.durable := durable;
      this.firm := firm;
      this.rooted := rooted;
      events := [];
      worlds := [World(Shelf(files, durable, firm), rooted, None)];
    }

    /** Append one event to a record and sync the file. */
    method Append(name: string, event: LedgerEvent, append: HonestAppend)
      modifies this`files, this`firm
      ensures Contents() == Written(old(Contents()), name,
        Appended(if name in old(files) then old(files)[name] else Events([]), event, append.reach), append)
    {
      var content := Appended(if name in files then files[name] else Events([]), event, append.reach);
      files := files[name := content];
      if append.reported {
        firm := firm + {name};
      } else if !append.reach.Nothing? {
        firm := firm - {name};
      }
    }

    /** Sync the directory. */
    ghost method Sync()
      modifies this`durable
      ensures Contents() == SyncNames(old(Contents()))
    {
      durable := durable + files.Keys;
    }

    /** One more step of the run. */
    ghost method Extend(rules: Rules, now: World, e: Event, after: World)
      requires Reached(rules, now) && Next(rules, now, e, after)
      modifies this`events, this`worlds
      ensures Reached(rules, after) && events == old(events) + [e] && worlds == old(worlds) + [after]
    {
      RunExtends(Transition(rules), events, worlds, e, after);
      events, worlds := events + [e], worlds + [after];
    }

    /** The machine stops: `left` is what is found afterwards. */
    method Crash(ghost rules: Rules, ghost now: World, left: Files, lost: bool)
      requires Reached(rules, now) && now.shelf == Contents() && now.rooted == rooted
      requires if lost then !rooted && left == map[] else ShelfCrash(Contents(), Shelf(left, left.Keys, left.Keys))
      modifies this
      ensures files == left && Reached(rules, World(Contents(), rooted, None)) && events == old(events) + [Crashing]
    {
      files := left;
      durable, firm, rooted := left.Keys, left.Keys, !lost;
      Extend(rules, now, Crashing, World(Contents(), rooted, None));
    }
  }

  // ---------- the ledger ----------

  class MutationLedger {
    const dir: LedgerDirectory
    var owned: set<string>
    var recovery: Recovery

    ghost function State(): Book
      reads this, dir
    {
      Book(dir.Contents(), owned, recovery)
    }

    /** Open a directory: nothing is owned, and the freeze latch is what the scan finds. */
    constructor (dir: LedgerDirectory, listing: seq<(string, Content)>)
      requires D.Lists(listing, dir.files)
      ensures this.dir == dir && owned == {} && Scanned(dir.files, recovery)
    {
      this.dir := dir;
      owned := {};
      var status := ScanRecovery(listing);
      recovery := status;
      assert AllTerminal(dir.files) ==> forall e :: e in listing ==> Terminal(e.0, e.1);
    }

    method ReserveId(subject: Subject, calls: ReserveCalls) returns (answer: Answer)
      modifies this, dir`files, dir`durable, dir`firm
      ensures (State(), answer) == Reserve(old(State()), subject, calls)
    {
      if Frozen(recovery) {
        return Err(OutcomeUnknown);
      }
      if !ValidSubject(subject) {
        return Err(InvalidSubject);
      }
      if !calls.create {
        return Err(Io);
      }
      var name := RecordName(subject.mutationId);
      if name !in dir.files {
        dir.Append(name, Reserved(SCHEMA_VERSION, subject), calls.append);
        if !calls.append.reported || !calls.directorySync {
          recovery := MarkCorrupt(recovery);
          return Err(OutcomeUnknown);
        }
        dir.Sync();
        owned := owned + {subject.mutationId};
        return Ok(Fresh);
      }
      var loaded := if calls.read then LoadRecord(dir.files[name]) else None;
      if loaded.None? {
        recovery := MarkCorrupt(recovery);
        return Err(OutcomeUnknown);
      }
      if loaded.value.subject != subject {
        return Err(ReplayConflict);
      }
      if loaded.value.result.Some? {
        return Ok(Replay(loaded.value.result.value));
      }
      recovery := MarkIndeterminate(recovery, subject, InFlight);
      return Err(OutcomeUnknown);
    }

    method SettleId(subject: Subject, outcome: Outcome, digest: string, at: nat, calls: SettleCalls)
      returns (answer: Answer)
      modifies this, dir`files, dir`firm
      ensures (State(), answer) == Settle(old(State()), subject, outcome, digest, at, calls)
    {
      if Frozen(recovery) {
        return Err(OutcomeUnknown);
      }
      if !ValidSubject(subject) || !IsDigestName(digest) || at > MAX_SAFE_INTEGER {
        return Err(InvalidSubject);
      }
      var name := RecordName(subject.mutationId);
      var loaded := if calls.read && name in dir.files then LoadRecord(dir.files[name]) else None;
      if loaded.None? {
        recovery := MarkCorrupt(recovery);
        return Err(OutcomeUnknown);
      }
      if loaded.value.subject != subject {
        return Err(ReplayConflict);
      }
      if loaded.value.result.Some? {
        var same := loaded.value.result.value == MutationResult(subject, outcome, digest, at);
        return if same then Ok(Replay(loaded.value.result.value)) else Err(ReplayConflict);
      }
      if subject.mutationId !in owned {
        return Err(OutcomeUnknown);
      }
      owned := owned - {subject.mutationId};
      dir.Append(name, Settled(SCHEMA_VERSION, subject, outcome, digest, at), calls.append);
      if !calls.append.reported {
        recovery := MarkCorrupt(recovery);
        return Err(OutcomeUnknown);
      }
      if outcome == Unknown {
        recovery := MarkIndeterminate(recovery, subject, OutcomeWasUnknown);
      }
      return Ok(Fresh);
    }

    // Settling through the checker, and refusing before execution.

    method SettleMutation(seal: Fingerprint, subject: Subject, outcome: Outcome, digest: string, path: Path,
                          calls: SettlementCalls)
      returns (settled: bool)
      modifies this, dir`files, dir`firm
      ensures (State(), settled) == SettleThrough(seal, old(State()), subject, outcome, digest, path, calls)
    {
      if calls.now.None? || !IsDigestName(digest) {
        return false;
      }
      if path == Kernel && !Acknowledges(seal, calls.answer, subject, outcome, digest, calls.now.value) {
        return false;
      }
      var answer := SettleId(subject, outcome, digest, calls.now.value, calls.settle);
      return answer.Ok?;
    }

    method AbortBeforeRepository(seal: Fingerprint, subject: Subject, digest: string, path: Path,
                                 calls: SettlementCalls, latch: ReserveCalls)
      returns (aborted: bool)
      modifies this, dir`files, dir`durable, dir`firm
      ensures (State(), aborted) == Abort(seal, old(State()), subject, digest, path, calls, latch)
    {
      aborted := SettleMutation(seal, subject, Aborted, digest, path, calls);
      if !aborted {
        var _ := ReserveId(subject, latch);
      }
    }
  }

  // ---------- the daemon ----------

  /** What the online final check answered: a subject for this exact request, and a deadline. */
  datatype Decision = Decision(operation: Operation, subject: Subject, fingerprint: Digest, expires: nat)

  datatype Permit = Permit(subject: Subject, operation: Operation, fingerprint: Digest, expires: nat)

  /** The request in hand, and the writer incarnation the session expects. */
  datatype Asked = Asked(operation: Operation, fingerprint: Digest, attempt: string, fence: nat, nonce: string)

  predicate Binds(d: Decision, asked: Asked) {
    && d.operation == asked.operation && d.subject.operation == asked.operation
    && d.fingerprint == asked.fingerprint && d.subject.requestDigest == ToHex(asked.fingerprint)
    && d.subject.attemptId == asked.attempt && d.subject.attemptFence == asked.fence
    && d.subject.workspaceNonce == asked.nonce
  }

  predicate InWindow(now: Option<nat>, expires: nat) {
    now.Some? && now.value < expires && expires - now.value <= MAX_PERMIT_TTL_MS
  }

  /** What a refusal meets. */
  datatype RefusalCalls = RefusalCalls(digest: string, settlement: SettlementCalls, latch: ReserveCalls)

  /** The id was executed at some point of the run. */
  ghost predicate ExecutedIn(events: seq<Event>, worlds: seq<World>, id: string)
    requires |events| <= |worlds|
  {
    exists i :: 0 <= i < |events| && Executes(worlds[i], events[i], id)
  }

  /** Every machine crash found the ledger directory's own entry durable. */
  ghost predicate AlwaysRooted(events: seq<Event>, worlds: seq<World>)
    requires |events| <= |worlds|
  {
    forall k :: 0 <= k < |events| && events[k].Crashing? ==> worlds[k].rooted
  }

  lemma NotExecutedBefore(rules: Rules, events: seq<Event>, worlds: seq<World>, e: Event, t: World, id: string)
    requires Run(rules, events, worlds) && worlds[0].process.None? && AlwaysRooted(events, worlds)
    requires Next(rules, worlds[|events|], e, t) && Executes(worlds[|events|], e, id)
    ensures !ExecutedIn(events, worlds, id)
  {
    if ExecutedIn(events, worlds, id) {
      var i :| 0 <= i < |events| && Executes(worlds[i], events[i], id);
      var longer, more := events + [e], worlds + [t];
      RunExtends(Transition(rules), events, worlds, e, t);
      assert longer[i] == events[i] && more[i] == worlds[i] && more[|events|] == worlds[|events|];
      AtMostOneExecution(rules, longer, more, i, |events|, id);
    }
  }

  class Daemon {
    const rules: Rules
    const dir: LedgerDirectory
    var ledger: MutationLedger?
    var frozen: bool
    /** The request in progress, which a permit or a pending mutation stands for. */
    ghost var phase: Phase

    ghost function MemoryNow(): Option<Memory>
      reads this, ledger
    {
      if ledger == null then None else Some(Memory(ledger.owned, ledger.recovery))
    }

    ghost function Now(): World
      reads this, dir, ledger
    {
      World(dir.Contents(), dir.rooted, Some(Process(MemoryNow(), frozen, phase)))
    }

    /** The directory's run ends in what this process and the directory hold. */
    ghost predicate Valid()
      reads this, dir, ledger
    {
      (ledger != null ==> ledger.dir == dir) && dir.Reached(rules, Now())
    }

    /** This process admits mutations, or would as soon as it opens the ledger. */
    ghost predicate Writable()
      reads this, dir, ledger
    {
      && !frozen
      && if ledger == null then |dir.files| <= MAX_LEDGER_RECORDS && AllTerminal(dir.files)
         else !Frozen(ledger.recovery)
    }

    /** The ledger as a request finds it once it is open and admits mutations. */
    ghost function OpenBook(): Book
      reads this, dir, ledger
      requires ledger != null ==> ledger.dir == dir
    {
      if ledger == null then Book(dir.Contents(), {}, CLEAN) else ledger.State()
    }

    /** Start a process over a directory that no process serves. */
    constructor (rules: Rules, dir: LedgerDirectory)
      requires dir.Reached(rules, World(dir.Contents(), dir.rooted, None))
      modifies dir
      ensures this.rules == rules && this.dir == dir && Valid() && ledger == null && !frozen && phase == Idle
      ensures dir.files == old(dir.files) && dir.events == old(dir.events) + [Starting]
    {
      this.rules := rules;
      this.dir := dir;
      ledger := null;
      frozen := false;
      phase := Idle;
      new;
      dir.Extend(rules, World(dir.Contents(), dir.rooted, None), Starting, Now());
    }

    /** The process dies between two calls, and leaves the directory to the next process. */
    ghost method Die()
      requires Valid()
      modifies dir
      ensures dir.Reached(rules, World(dir.Contents(), dir.rooted, None)) && dir.events == old(dir.events) + [Killed]
      ensures dir.Contents() == old(dir.Contents())
    {
      dir.Extend(rules, Now(), Killed, World(dir.Contents(), dir.rooted, None));
    }

    /** Open the ledger unless it is open, and say whether it admits mutations. */
    method Recover(listing: seq<(string, Content)>) returns (writable: bool)
      requires Valid() && phase == Idle && D.Lists(listing, dir.files)
      modifies this, dir
      ensures Valid() && ledger != null && (old(ledger) != null ==> ledger == old(ledger)) && frozen == old(frozen)
      ensures old(ledger) == null ==> fresh(ledger)
      ensures phase == Idle && dir.Contents() == old(dir.Contents()) && writable == !Frozen(ledger.recovery)
      ensures !old(frozen) ==> writable == old(Writable())
      ensures old(ledger) == null ==> ledger.owned == {}
      ensures old(ledger) != null ==> ledger.State() == old(ledger.State())
      ensures dir.events == old(dir.events) + if old(ledger) == null then [Doing(Opening(ledger.recovery))] else []
    {
      ghost var was := Now();
      if ledger == null {
        ledger := new MutationLedger(dir, listing);
        dir.Extend(rules, was, Doing(Opening(ledger.recovery)), Now());
      }
      return !Frozen(ledger.recovery);
    }

    /** Reserve an id: one step of the run. */
    method ReserveStep(subject: Subject, path: Path, calls: ReserveCalls) returns (answer: Answer)
      requires Valid() && phase == Idle && ledger != null && !frozen
      modifies this, dir, ledger
      ensures Valid() && ledger == old(ledger) && !frozen
      ensures phase == (if answer == Ok(Fresh) then Permitted(subject, path) else Idle)
      ensures answer == Reserve(old(ledger.State()), subject, calls).1
      ensures dir.events == old(dir.events) + [Doing(Authorizing(subject, path, calls))]
    {
      ghost var was := Now();
      answer := ledger.ReserveId(subject, calls);
      if answer == Ok(Fresh) {
        phase := Permitted(subject, path);
      }
      dir.Extend(rules, was, Doing(Authorizing(subject, path, calls)), Now());
    }

    /** Refuse a permit before execution: one step of the run. */
    method RefuseStep(subject: Subject, path: Path, refusal: RefusalCalls) returns (aborted: bool)
      requires Valid() && phase == Permitted(subject, path) && ledger != null
      modifies this, dir, ledger
      ensures Valid() && ledger == old(ledger) && frozen == old(frozen) && phase == Idle
      ensures (ledger.State(), aborted) == Abort(rules.seal, old(ledger.State()), subject, refusal.digest, path,
                                                 refusal.settlement, refusal.latch)
      ensures dir.events == old(dir.events) + [Doing(Refusing(refusal.digest, refusal.settlement, refusal.latch))]
    {
      ghost var was := Now();
      aborted := ledger.AbortBeforeRepository(rules.seal, subject, refusal.digest, path, refusal.settlement,
        refusal.latch);
      phase := Idle;
      dir.Extend(rules, was, Doing(Refusing(refusal.digest, refusal.settlement, refusal.latch)), Now());
    }

    /** Reserve for a decision, and refuse again when it comes too late or lasts too long. */
    method Grant(decision: Decision, now: Option<nat>, calls: ReserveCalls, refusal: RefusalCalls)
      returns (permit: Option<Permit>, ghost reserved: Option<Answer>)
      requires Valid() && phase == Idle && ledger != null && !frozen
      modifies this, dir, ledger
      ensures Valid() && ledger == old(ledger) && !frozen && old(dir.events) <= dir.events
      ensures reserved == Some(Reserve(old(ledger.State()), decision.subject, calls).1)
      ensures permit.Some? <==>
        reserved == Some(Ok(Fresh)) && now.Some? && now.value < decision.expires <= now.value + MAX_PERMIT_TTL_MS
      ensures permit.Some? ==>
        && permit.value == Permit(decision.subject, decision.operation, decision.fingerprint, decision.expires)
        && phase == Permitted(permit.value.subject, Kernel)
      ensures permit.None? ==> phase == Idle
    {
      permit := None;
      var answer := ReserveStep(decision.subject, Kernel, calls);
      reserved := Some(answer);
      if answer != Ok(Fresh) {
        return;
      }
      if !InWindow(now, decision.expires) {
        var _ := RefuseStep(decision.subject, Kernel, refusal);
        return;
      }
      permit := Some(Permit(decision.subject, decision.operation, decision.fingerprint, decision.expires));
    }

    /** Authorize one request online.  A permit is granted exactly for a fresh reservation whose
        decision binds this very request and writer, inside its short window; a late window
        refusal goes through the abort.  `reserved` is the ledger's answer, if it was asked. */
    method Authorize(listing: seq<(string, Content)>, asked: Asked, decision: Option<Decision>, now: Option<nat>,
                     calls: ReserveCalls, refusal: RefusalCalls)
      returns (permit: Option<Permit>, ghost reserved: Option<Answer>)
      requires Valid() && phase == Idle && D.Lists(listing, dir.files)
      modifies this, dir, ledger
      ensures Valid() && frozen == old(frozen) && old(dir.events) <= dir.events
      ensures reserved.Some? <==>
        && old(Writable()) && decision.Some? && decision.value.operation == asked.operation
        && decision.value.fingerprint == asked.fingerprint
        && var subject := decision.value.subject;
          && subject.operation == asked.operation && subject.requestDigest == ToHex(asked.fingerprint)
          && subject.attemptId == asked.attempt && subject.attemptFence == asked.fence
          && subject.workspaceNonce == asked.nonce
      ensures reserved.Some? ==> reserved.value == Reserve(old(OpenBook()), decision.value.subject, calls).1
      ensures permit.Some? <==>
        && reserved == Some(Ok(Fresh)) && now.Some?
        && now.value < decision.value.expires <= now.value + MAX_PERMIT_TTL_MS
      ensures permit.Some? ==>
        && permit.value == Permit(decision.value.subject, asked.operation, asked.fingerprint, decision.value.expires)
        && phase == Permitted(permit.value.subject, Kernel) && ledger != null
      ensures permit.None? ==> phase == Idle
    {
      permit, reserved := None, None;
      if frozen {
        return;
      }
      var writable := Recover(listing);
      if !writable || decision.None? || !Binds(decision.value, asked) {
        return;
      }
      permit, reserved := Grant(decision.value, now, calls, refusal);
    }

    /** Authorize one cleanup by a sealed receipt: no online check, one reservation. */
    method AuthorizeByReceipt(listing: seq<(string, Content)>, subject: Subject, fingerprint: Digest, now: Option<nat>,
                              calls: ReserveCalls)
      returns (permit: Option<Permit>, replay: Option<MutationResult>, ghost reserved: Option<Answer>)
      requires Valid() && phase == Idle && D.Lists(listing, dir.files)
      modifies this, dir, ledger
      ensures Valid() && frozen == old(frozen) && old(dir.events) <= dir.events
      ensures reserved.Some? <==> old(Writable()) && now.Some? && now.value + MAX_PERMIT_TTL_MS < TWO_TO_THE_64
      ensures reserved.Some? ==> reserved.value == Reserve(old(OpenBook()), subject, calls).1
      ensures permit.Some? <==> reserved == Some(Ok(Fresh))
      ensures replay.Some? <==> reserved.Some? && reserved.value.Ok? && reserved.value.value.Replay?
      ensures replay.Some? ==> reserved.value.value.result == replay.value
      ensures permit.Some? ==>
        && now.Some? && permit.value == Permit(subject, CleanupWorkspace, fingerprint, now.value + MAX_PERMIT_TTL_MS)
        && phase == Permitted(subject, ReceiptLocal) && ledger != null && replay.None?
      ensures permit.None? ==> phase == Idle
    {
      permit, replay, reserved := None, None, None;
      if frozen {
        return;
      }
      var writable := Recover(listing);
      if !writable || now.None? || now.value + MAX_PERMIT_TTL_MS >= TWO_TO_THE_64 {
        return;
      }
      var answer := ReserveStep(subject, ReceiptLocal, calls);
      reserved := Some(answer);
      match answer
      case Ok(Fresh) => permit := Some(Permit(subject, CleanupWorkspace, fingerprint, now.value + MAX_PERMIT_TTL_MS));
      case Ok(Replay(result)) => replay := Some(result);
      case Err(_) =>
    }

    /** Consume a permit immediately before repository I/O, or abort it.  What is consumed was
        never executed before, by any process over this directory, unless a machine crash found
        the directory's own entry not durable. */
    method Consume(permit: Permit, operation: Operation, fingerprint: Digest, now: Option<nat>, path: Path,
                   refusal: RefusalCalls) returns (pending: Option<Subject>)
      requires Valid() && phase == Permitted(permit.subject, path) && ledger != null
      modifies this, dir, ledger
      ensures Valid() && frozen == old(frozen) && ledger == old(ledger) && old(dir.events) <= dir.events
      ensures pending.Some? <==>
        permit.operation == operation && permit.fingerprint == fingerprint && now.Some? && now.value < permit.expires
      ensures pending.Some? ==>
        && pending.value == permit.subject && phase == Executing(permit.subject, path)
        && dir.Contents() == old(dir.Contents())
        && ExecutedIn(dir.events, dir.worlds, permit.subject.mutationId)
        && (AlwaysRooted(old(dir.events), old(dir.worlds)) ==>
              !ExecutedIn(old(dir.events), old(dir.worlds), permit.subject.mutationId))
      ensures pending.None? ==> phase == Idle
    {
      ghost var was := Now();
      if permit.operation == operation && permit.fingerprint == fingerprint && now.Some? && now.value < permit.expires {
        phase := Executing(permit.subject, path);
        if AlwaysRooted(dir.events, dir.worlds) {
          NotExecutedBefore(rules, dir.events, dir.worlds, Doing(Consuming), Now(), permit.subject.mutationId);
        }
        dir.Extend(rules, was, Doing(Consuming), Now());
        assert Executes(dir.worlds[|old(dir.events)|], dir.events[|old(dir.events)|], permit.subject.mutationId);
        return Some(permit.subject);
      }
      var _ := RefuseStep(permit.subject, path, refusal);
      return None;
    }

    /** Settle what the repository returned, and freeze on anything but a settled success: one
        step of the run, so a success stays backed as `SuccessStaysBacked` says. */
    method Complete(subject: Subject, path: Path, result: Result<Bytes, Bytes>, encodes: bool, calls: SettlementCalls)
      returns (success: bool)
      requires Valid() && phase == Executing(subject, path) && ledger != null
      modifies this, dir, ledger
      ensures Valid() && phase == Idle && ledger == old(ledger)
      ensures success <==> Succeeds(rules, old(Now()), Doing(Finishing(result, encodes, calls)))
      ensures success <==>
        Finishable(rules.seal, rules.digestOf, subject, subject.operation, path, result, encodes, calls)
      ensures !success ==> frozen
      ensures dir.events == old(dir.events) + [Doing(Finishing(result, encodes, calls))]
    {
      ghost var was := Now();
      RunIsBacked(rules, dir.events, dir.worlds, |dir.events|);
      FinishSucceedsExactly(rules.seal, rules.digestOf, ledger.State(), frozen, subject, subject.operation, path,
                            result, encodes, calls);
      success := FinishMutationOn(subject, path, result, encodes, calls);
      phase := Idle;
      dir.Extend(rules, was, Doing(Finishing(result, encodes, calls)), Now());
    }

    method FinishMutationOn(subject: Subject, path: Path, result: Result<Bytes, Bytes>, encodes: bool,
                            calls: SettlementCalls)
      returns (success: bool)
      requires ledger != null && ledger.dir == dir
      modifies this`frozen, ledger, dir`files, dir`firm
      ensures Finish(ledger.State(), frozen, success) ==
        FinishMutation(rules.seal, rules.digestOf, old(ledger.State()), old(frozen), subject, subject.operation, path,
                       result, encodes, calls)
      ensures !success ==> frozen
    {
      if !encodes {
        frozen := true;
        return false;
      }
      var outcome := if result.Ok? then Committed else Unknown;
      var digest := rules.digestOf(subject.operation, outcome, match result case Ok(p) => p case Err(p) => p);
      var settled := ledger.SettleMutation(rules.seal, subject, outcome, digest, path, calls);
      if !settled || result.Err? {
        frozen := true;
        return false;
      }
      return true;
    }
  }
}
