/** Every run of the daemon over one ledger directory: requests, deaths at any point, torn
  appends, restarts and machine crashes.

  A machine crash may take away names that were never synced and change contents that were
  never synced.  Nothing syncs the entry of the ledger directory itself, so until something
  else does, or a crash has left it in place, a crash may take the whole directory away.
*/
module DaemonRuns {
  import opened Framing
  import opened Ledger
  import opened Gateway
  import opened Runs

  /** The ledger as a live process holds it. */
  datatype Memory = Memory(owned: set<string>, recovery: Recovery)

  /** Where the one request in progress stands. */
  datatype Phase =
    | Idle
    | Permitted(subject: Subject, path: Path)   // a fresh reservation, nothing executed
    | Executing(subject: Subject, path: Path)   // the permit is consumed

  datatype Process = Process(memory: Option<Memory>, frozen: bool, phase: Phase)

  /** The ledger directory, whether its own entry is durable, and the process over it. */
  datatype World = World(shelf: Shelf, rooted: bool, process: Option<Process>)

  datatype Step =
    | Opening(scanned: Recovery)
    | Authorizing(asked: Subject, route: Path, calls: ReserveCalls)
    | Refusing(digest: string, settlement: SettlementCalls, latch: ReserveCalls)
    | Consuming
    | Finishing(result: Result<Bytes, Bytes>, encodes: bool, settlement: SettlementCalls)

  datatype Event =
    | Starting
    | Doing(step: Step)
    | Killed
    | KilledDuring(step: Step) // the process dies inside a step, whose writes may be torn
    | RootSynced               // something else syncs the directory above the ledger
    | Crashing                 // the machine stops

  datatype Rules = Rules(seal: Fingerprint, digestOf: ResultDigest)

  function BookOf(shelf: Shelf, m: Memory): Book {
    Book(shelf, m.owned, m.recovery)
  }

  function MemoryOf(b: Book): Memory {
    Memory(b.owned, b.recovery)
  }

  /** Every record is settled as Committed or Aborted. */
  ghost predicate AllTerminal(files: Files) {
    forall name :: name in files ==> Terminal(name, files[name])
  }

  /** What the recovery scan answers on this directory. */
  ghost predicate Scanned(files: Files, r: Recovery) {
    !Frozen(r) <==> |files| <= MAX_LEDGER_RECORDS && AllTerminal(files)
  }

  function AfterBook(w: World, b: Book, frozen: bool, phase: Phase): World {
    World(b.shelf, w.rooted, Some(Process(Some(MemoryOf(b)), frozen, phase)))
  }

  function Authorize(w: World, asked: Subject, route: Path, calls: ReserveCalls): World
    requires w.process.Some? && w.process.value.memory.Some?
  {
    var p := w.process.value;
    if p.frozen then w
    else
      var (after, answer) := Reserve(BookOf(w.shelf, p.memory.value), asked, calls);
      AfterBook(w, after, false, if answer == Ok(Fresh) then Permitted(asked, route) else Idle)
  }

  function Refuse(rules: Rules, w: World, digest: string, settlement: SettlementCalls, latch: ReserveCalls): World
    requires w.process.Some? && w.process.value.memory.Some? && w.process.value.phase.Permitted?
  {
    var p := w.process.value;
    var (after, _) := Abort(rules.seal, BookOf(w.shelf, p.memory.value), p.phase.subject, digest, p.phase.path,
      settlement, latch);
    AfterBook(w, after, p.frozen, Idle)
  }

  function Finishes(rules: Rules, shelf: Shelf, p: Process, result: Result<Bytes, Bytes>, encodes: bool,
                    settlement: SettlementCalls): Finish
    requires p.memory.Some? && p.phase.Executing?
  {
    FinishMutation(rules.seal, rules.digestOf, BookOf(shelf, p.memory.value), p.frozen, p.phase.subject,
                   p.phase.subject.operation, p.phase.path, result, encodes, settlement)
  }

  ghost predicate StepTo(rules: Rules, w: World, step: Step, t: World) {
    && w.process.Some?
    && var p := w.process.value;
      match step
      case Opening(scanned) =>
        && p.memory.None? && p.phase.Idle? && Scanned(w.shelf.files, scanned)
        && t == w.(process := Some(p.(memory := Some(Memory({}, scanned)))))
      case Authorizing(asked, route, calls) =>
        p.phase.Idle? && p.memory.Some? && t == Authorize(w, asked, route, calls)
      case Refusing(digest, settlement, latch) =>
        p.phase.Permitted? && p.memory.Some? && t == Refuse(rules, w, digest, settlement, latch)
      case Consuming =>
        p.phase.Permitted? && t == w.(process := Some(p.(phase := Executing(p.phase.subject, p.phase.path))))
      case Finishing(result, encodes, settlement) =>
        && p.phase.Executing? && p.memory.Some?
        && var f := Finishes(rules, w.shelf, p, result, encodes, settlement);
          t == AfterBook(w, f.book, f.frozen, Idle)
  }

  /** The crash takes the whole ledger directory away. */
  predicate LosesLedger(w: World, t: World) {
    !w.rooted && t == World(EMPTY_SHELF, false, None)
  }

  ghost predicate Next(rules: Rules, w: World, e: Event, t: World) {
    match e
    case Starting => w.process.None? && t == w.(process := Some(Process(None, false, Idle)))
    case Doing(step) => StepTo(rules, w, step, t)
    case Killed => t == w.(process := None)
    case KilledDuring(step) => exists u :: StepTo(rules, w, step, u) && t == u.(process := None)
    case RootSynced => t == w.(rooted := true)
    case Crashing => LosesLedger(w, t) || (ShelfCrash(w.shelf, t.shelf) && t.rooted && t.process.None?)
  }

  ghost function Transition(rules: Rules): (World, Event, World) -> bool {
    (w, e, t) => Next(rules, w, e, t)
  }

  ghost predicate Run(rules: Rules, events: seq<Event>, worlds: seq<World>) {
    IsRun(Transition(rules), events, worlds)
  }

  /** The step of an event, if it is one. */
  function StepOf(e: Event): Option<Step> {
    match e case Doing(step) => Some(step) case KilledDuring(step) => Some(step) case _ => None
  }

  /** What an event leaves before a death that it may end in. */
  lemma StepWorld(rules: Rules, w: World, e: Event, t: World) returns (u: World)
    requires Next(rules, w, e, t) && StepOf(e).Some?
    ensures StepTo(rules, w, StepOf(e).value, u) && (t == u || t == u.(process := None))
    ensures e.Doing? ==> t == u
  {
    if e.Doing? {
      u := t;
    } else {
      u :| StepTo(rules, w, e.step, u) && t == u.(process := None);
    }
  }

  // ---------- what a step does to the directory ----------

  /** The record has a terminal result, of any outcome. */
  predicate Stands(c: Content) {
    LoadRecord(c).Some? && LoadRecord(c).value.result.Some?
  }

  /** No record disappears, no name becomes less durable, and settled records stay as they are
      and as firm as they were. */
  ghost predicate ShelfStep(s: Shelf, t: Shelf) {
    && s.files.Keys <= t.files.Keys && s.durable <= t.durable
    && forall name :: name in s.files && Stands(s.files[name]) ==>
         t.files[name] == s.files[name] && (name in s.firm ==> name in t.firm)
  }

  lemma SettleThroughShelf(seal: Fingerprint, b: Book, subject: Subject, outcome: Outcome, digest: string, path: Path,
                           calls: SettlementCalls)
    ensures ShelfStep(b.shelf, SettleThrough(seal, b, subject, outcome, digest, path, calls).0.shelf)
  {
    if Reaches(seal, subject, outcome, digest, path, calls) {
      SettleKeeps(b, subject, outcome, digest, calls.now.value, calls.settle);
      SettleKeepsFirm(b, subject, outcome, digest, calls.now.value, calls.settle);
    }
  }

  lemma AbortShelf(seal: Fingerprint, b: Book, subject: Subject, digest: string, path: Path, calls: SettlementCalls,
                   latch: ReserveCalls)
    ensures ShelfStep(b.shelf, Abort(seal, b, subject, digest, path, calls, latch).0.shelf)
  {
    SettleThroughShelf(seal, b, subject, Aborted, digest, path, calls);
    ReserveKeeps(SettleThrough(seal, b, subject, Aborted, digest, path, calls).0, subject, latch);
  }

  lemma FinishShelf(rules: Rules, shelf: Shelf, p: Process, result: Result<Bytes, Bytes>, encodes: bool,
                    settlement: SettlementCalls)
    requires p.memory.Some? && p.phase.Executing?
    ensures ShelfStep(shelf, Finishes(rules, shelf, p, result, encodes, settlement).book.shelf)
  {
    var outcome := if result.Ok? then Committed else Unknown;
    var digest := rules.digestOf(p.phase.subject.operation, outcome, match result case Ok(x) => x case Err(x) => x);
    SettleThroughShelf(rules.seal, BookOf(shelf, p.memory.value), p.phase.subject, outcome, digest, p.phase.path,
      settlement);
  }

  lemma StepShelf(rules: Rules, w: World, step: Step, t: World)
    requires StepTo(rules, w, step, t)
    ensures ShelfStep(w.shelf, t.shelf) && t.rooted == w.rooted
  {
    var p := w.process.value;
    match step
    case Opening(_) =>
    case Authorizing(asked, route, calls) =>
      ReserveKeeps(BookOf(w.shelf, p.memory.value), asked, calls);
    case Refusing(digest, settlement, latch) =>
      AbortShelf(rules.seal, BookOf(w.shelf, p.memory.value), p.phase.subject, digest, p.phase.path, settlement, latch);
    case Consuming =>
    case Finishing(result, encodes, settlement) =>
      FinishShelf(rules, w.shelf, p, result, encodes, settlement);
  }

  lemma NextShelf(rules: Rules, w: World, e: Event, t: World)
    requires Next(rules, w, e, t) && !e.Crashing?
    ensures ShelfStep(w.shelf, t.shelf)
  {
    if StepOf(e).Some? {
      var u := StepWorld(rules, w, e, t);
      StepShelf(rules, w, StepOf(e).value, u);
    }
  }

  // ---------- at most one execution per mutation id ----------

  predicate HoldsPermit(w: World, id: string) {
    w.process.Some? && w.process.value.phase.Permitted? && w.process.value.phase.subject.mutationId == id
  }

  /** The id has a durable record and no permit for it is out: it can never be executed again. */
  predicate Spent(w: World, id: string) {
    RecordName(id) in w.shelf.files && RecordName(id) in w.shelf.durable && !HoldsPermit(w, id)
  }

  lemma StepKeepsSpent(rules: Rules, w: World, step: Step, t: World, id: string)
    requires Spent(w, id) && StepTo(rules, w, step, t)
    ensures Spent(t, id)
  {
    StepShelf(rules, w, step, t);
    if step.Authorizing? {
      ReserveKeeps(BookOf(w.shelf, w.process.value.memory.value), step.asked, step.calls);
    }
  }

  lemma NextKeepsSpent(rules: Rules, w: World, e: Event, t: World, id: string)
    requires Spent(w, id) && Next(rules, w, e, t)
    ensures Spent(t, id) || (e.Crashing? && LosesLedger(w, t))
  {
    if StepOf(e).Some? {
      var u := StepWorld(rules, w, e, t);
      StepKeepsSpent(rules, w, StepOf(e).value, u, id);
    }
  }

  /** A permit is backed by its own durable reservation. */
  predicate Backed(w: World) {
    w.process.Some? && !w.process.value.phase.Idle? ==>
      && w.process.value.memory.Some?
      && Outstanding(BookOf(w.shelf, w.process.value.memory.value), w.process.value.phase.subject)
      && RecordName(w.process.value.phase.subject.mutationId) in w.shelf.durable
      && RecordName(w.process.value.phase.subject.mutationId) in w.shelf.firm
  }

  lemma NextKeepsBacked(rules: Rules, w: World, e: Event, t: World)
    requires Backed(w) && Next(rules, w, e, t)
    ensures Backed(t)
  {
    if e.Doing? && e.step.Authorizing? {
      ReserveKeeps(BookOf(w.shelf, w.process.value.memory.value), e.step.asked, e.step.calls);
    }
  }

  lemma RunIsBacked(rules: Rules, events: seq<Event>, worlds: seq<World>, at: nat)
    requires Run(rules, events, worlds) && at < |worlds| && worlds[0].process.None?
    ensures Backed(worlds[at])
  {
    forall w, e, t | Backed(w) && Transition(rules)(w, e, t) ensures Backed(t) {
      NextKeepsBacked(rules, w, e, t);
    }
    StaysTrue(Transition(rules), w => Backed(w), events, worlds, 0, at);
  }

  /** Repository execution of this id starts at this event, whether or not it survives it. */
  predicate Executes(w: World, e: Event, id: string) {
    StepOf(e) == Some(Consuming) && HoldsPermit(w, id)
  }

  lemma ExecutingSpends(rules: Rules, w: World, e: Event, t: World, id: string)
    requires Backed(w) && Next(rules, w, e, t) && Executes(w, e, id)
    ensures Spent(t, id)
  {
    var u := StepWorld(rules, w, e, t);
  }

  /** A machine crash between two worlds found the ledger directory's own entry not durable. */
  ghost predicate Unrooted(events: seq<Event>, worlds: seq<World>, i: nat, j: nat)
    requires j <= |events| <= |worlds|
  {
    exists k :: i < k < j && events[k].Crashing? && !worlds[k].rooted
  }

  lemma UnrootedGrows(events: seq<Event>, worlds: seq<World>, i: nat, j: nat)
    requires i < j < |events| <= |worlds|
    ensures Unrooted(events, worlds, i, j) ==> Unrooted(events, worlds, i, j + 1)
    ensures events[j].Crashing? && !worlds[j].rooted ==> Unrooted(events, worlds, i, j + 1)
  {
  }

  lemma {:induction false} SpentUntilLost(rules: Rules, events: seq<Event>, worlds: seq<World>, i: nat, j: nat,
                                          id: string)
    requires Run(rules, events, worlds) && i < j < |worlds| && Spent(worlds[i + 1], id)
    ensures Spent(worlds[j], id) || Unrooted(events, worlds, i, j)
    decreases j
  {
    if j > i + 1 {
      SpentUntilLost(rules, events, worlds, i, j - 1, id);
      UnrootedGrows(events, worlds, i, j - 1);
      if Spent(worlds[j - 1], id) {
        assert Transition(rules)(worlds[j - 1], events[j - 1], worlds[j]);
        NextKeepsSpent(rules, worlds[j - 1], events[j - 1], worlds[j], id);
      }
    }
  }

  /** At-most-once execution: over every run with restarts, deaths, torn appends and machine
      crashes, no mutation id reaches repository execution twice, unless a crash between the two
      found the entry of the ledger directory itself not durable. */
  lemma AtMostOneExecution(rules: Rules, events: seq<Event>, worlds: seq<World>, i: nat, j: nat, id: string)
    requires Run(rules, events, worlds) && worlds[0].process.None? && i < j < |events|
    requires Executes(worlds[i], events[i], id) && Executes(worlds[j], events[j], id)
    ensures Unrooted(events, worlds, i, j)
  {
    RunIsBacked(rules, events, worlds, i);
    assert Transition(rules)(worlds[i], events[i], worlds[i + 1]);
    ExecutingSpends(rules, worlds[i], events[i], worlds[i + 1], id);
    SpentUntilLost(rules, events, worlds, i, j, id);
  }

  /** All calls of a reservation work. */
  const WORKING := ReserveCalls(true, true, Append(Whole, true), true)

  lemma FirstPermit(rules: Rules, subject: Subject, path: Path, t: World)
    requires ValidSubject(subject)
    requires t == Authorize(World(EMPTY_SHELF, false, Some(Process(Some(Memory({}, CLEAN)), false, Idle))), subject,
      path, WORKING)
    ensures t.process.Some? && t.process.value.phase == Permitted(subject, path) && !t.rooted
  {
    ReserveKeeps(Book(EMPTY_SHELF, {}, CLEAN), subject, WORKING);
  }

  /** A round of five steps, begun a second time. */
  lemma AroundAgain(step: (World, Event, World) -> bool, s: seq<World>, e: seq<Event>)
    returns (events: seq<Event>, worlds: seq<World>)
    requires |s| == 5 && |e| == 5 && step(s[0], e[0], s[1]) && step(s[1], e[1], s[2]) && step(s[2], e[2], s[3])
    requires step(s[3], e[3], s[4]) && step(s[4], e[4], s[0])
    ensures IsRun(step, events, worlds) && |events| == 9 && worlds[0] == s[0]
    ensures worlds[3] == worlds[8] == s[3] && events[3] == events[8] == e[3]
  {
    events := [e[0], e[1], e[2], e[3], e[4], e[0], e[1], e[2], e[3]];
    worlds := [s[0], s[1], s[2], s[3], s[4], s[0], s[1], s[2], s[3], s[4]];
  }

  /** The first request of a first process, up to its execution. */
  lemma FirstRequest(rules: Rules, subject: Subject, path: Path, none: World, ask: Event)
    returns (idle: World, ready: World, granted: World, executing: World)
    requires ValidSubject(subject) && none == World(EMPTY_SHELF, false, None)
    requires ask == Doing(Authorizing(subject, path, WORKING))
    ensures Next(rules, none, Starting, idle) && Next(rules, idle, Doing(Opening(CLEAN)), ready)
    ensures Next(rules, ready, ask, granted) && Next(rules, granted, Doing(Consuming), executing)
    ensures HoldsPermit(granted, subject.mutationId) && !executing.rooted
  {
    idle := World(EMPTY_SHELF, false, Some(Process(None, false, Idle)));
    ready := World(EMPTY_SHELF, false, Some(Process(Some(Memory({}, CLEAN)), false, Idle)));
    granted := Authorize(ready, subject, path, WORKING);
    FirstPermit(rules, subject, path, granted);
    executing := granted.(process := Some(granted.process.value.(phase := Executing(subject, path))));
  }

  /** The failing input: a ledger directory that was never synced into its parent, one mutation
      executed, a machine crash that loses the directory, and the same mutation executed again. */
  lemma LostLedgerRepeats(rules: Rules, subject: Subject, path: Path) returns (events: seq<Event>, worlds: seq<World>)
    requires ValidSubject(subject)
    ensures Run(rules, events, worlds) && worlds[0] == World(EMPTY_SHELF, false, None) && |events| == 9
    ensures Executes(worlds[3], events[3], subject.mutationId) && Executes(worlds[8], events[8], subject.mutationId)
  {
    var none := World(EMPTY_SHELF, false, None);
    var ask := Doing(Authorizing(subject, path, WORKING));
    var idle, ready, granted, executing := FirstRequest(rules, subject, path, none, ask);
    events, worlds := Twice(rules, subject.mutationId, ask, none, idle, ready, granted, executing);
  }

  lemma Twice(rules: Rules, id: string, ask: Event, none: World, idle: World, ready: World, granted: World,
              executing: World)
    returns (events: seq<Event>, worlds: seq<World>)
    requires Next(rules, none, Starting, idle) && Next(rules, idle, Doing(Opening(CLEAN)), ready)
    requires Next(rules, ready, ask, granted) && Next(rules, granted, Doing(Consuming), executing)
    requires HoldsPermit(granted, id) && !executing.rooted && none == World(EMPTY_SHELF, false, None)
    ensures Run(rules, events, worlds) && worlds[0] == none && |events| == 9
    ensures Executes(worlds[3], events[3], id) && Executes(worlds[8], events[8], id)
  {
    assert LosesLedger(executing, none);
    events, worlds := AroundAgain(Transition(rules), [none, idle, ready, granted, executing],
                                  [Starting, Doing(Opening(CLEAN)), ask, Doing(Consuming), Crashing]);
  }

  // ---------- exactly when an executed id can be executed again ----------

  /** The run may go on like this from `w`. */
  ghost predicate Continues(rules: Rules, w: World, more: seq<Event>, after: seq<World>) {
    Run(rules, more, after) && after[0] == w
  }

  /** The run may go on from `w` up to an execution of this id. */
  ghost predicate CanExecute(rules: Rules, w: World, id: string) {
    exists more, after ::
      && Continues(rules, w, more, after) && |more| > 0
      && Executes(after[|more| - 1], more[|more| - 1], id)
  }

  /** Nothing ever takes a spent id out of a ledger directory whose own entry is durable. */
  lemma RootedStaysSpent(rules: Rules, w: World, more: seq<Event>, after: seq<World>, at: nat, id: string)
    requires Continues(rules, w, more, after) && at < |after| && Spent(w, id) && w.rooted
    ensures Spent(after[at], id) && after[at].rooted
  {
    var inv := (s: World) => Spent(s, id) && s.rooted;
    forall s, e, t | inv(s) && Transition(rules)(s, e, t) ensures inv(t) {
      NextKeepsSpent(rules, s, e, t, id);
      NextKeepsRooted(rules, s, e, t);
    }
    StaysTrue(Transition(rules), inv, more, after, 0, at);
  }

  lemma NextKeepsRooted(rules: Rules, w: World, e: Event, t: World)
    requires w.rooted && Next(rules, w, e, t)
    ensures t.rooted
  {
    if StepOf(e).Some? {
      var u := StepWorld(rules, w, e, t);
      StepShelf(rules, w, StepOf(e).value, u);
    }
  }

  /** A crash that loses the ledger, and the first request of a new process for this subject. */
  lemma LostLedgerExecutes(rules: Rules, w: World, subject: Subject, path: Path)
    requires !w.rooted && ValidSubject(subject)
    ensures CanExecute(rules, w, subject.mutationId)
  {
    var none := World(EMPTY_SHELF, false, None);
    var ask := Doing(Authorizing(subject, path, WORKING));
    var idle, ready, granted, executing := FirstRequest(rules, subject, path, none, ask);
    assert LosesLedger(w, none);
    Recovers(rules, w, subject.mutationId, ask, none, idle, ready, granted, executing);
  }

  lemma Recovers(rules: Rules, w: World, id: string, ask: Event, none: World, idle: World, ready: World, granted: World,
                 executing: World)
    requires Next(rules, w, Crashing, none) && Next(rules, none, Starting, idle)
    requires Next(rules, idle, Doing(Opening(CLEAN)), ready) && Next(rules, ready, ask, granted)
    requires Next(rules, granted, Doing(Consuming), executing) && HoldsPermit(granted, id)
    ensures CanExecute(rules, w, id)
  {
    var more := [Crashing, Starting, Doing(Opening(CLEAN)), ask, Doing(Consuming)];
    var after := [w, none, idle, ready, granted, executing];
    FiveSteps(Transition(rules), after, more);
    assert Continues(rules, w, more, after) && |more| == 5 && more[4] == Doing(Consuming) && after[4] == granted;
  }

  lemma FiveSteps(step: (World, Event, World) -> bool, s: seq<World>, e: seq<Event>)
    requires |s| == 6 && |e| == 5 && step(s[0], e[0], s[1]) && step(s[1], e[1], s[2]) && step(s[2], e[2], s[3])
    requires step(s[3], e[3], s[4]) && step(s[4], e[4], s[5])
    ensures IsRun(step, e, s)
  {
  }

  /** At-most-once, exactly: from the moment an id is executed, some continuation of the run
      executes it again if and only if the entry of the ledger directory is not durable then. */
  lemma RepeatsExactly(rules: Rules, events: seq<Event>, worlds: seq<World>, i: nat, id: string)
    requires Run(rules, events, worlds) && worlds[0].process.None? && i < |events|
    requires Executes(worlds[i], events[i], id)
    ensures CanExecute(rules, worlds[i + 1], id) <==> !worlds[i + 1].rooted
  {
    var w := worlds[i + 1];
    RunIsBacked(rules, events, worlds, i);
    assert Transition(rules)(worlds[i], events[i], w);
    ExecutingSpends(rules, worlds[i], events[i], w, id);
    if !w.rooted {
      LostLedgerExecutes(rules, w, worlds[i].process.value.phase.subject, worlds[i].process.value.phase.path);
    } else if CanExecute(rules, w, id) {
      var more, after :| && Continues(rules, w, more, after) && |more| > 0
                         && Executes(after[|more| - 1], more[|more| - 1], id);
      RootedStaysSpent(rules, w, more, after, |more| - 1, id);
      assert false;
    }
  }

  // ---------- settled records stand, and back every success ----------

  /** A settled record that no crash can take away or change. */
  predicate Fixed(w: World, name: string) {
    name in w.shelf.files && Stands(w.shelf.files[name]) && name in w.shelf.durable && name in w.shelf.firm
  }

  lemma NextKeepsFixed(rules: Rules, w: World, e: Event, t: World, name: string)
    requires Fixed(w, name) && Next(rules, w, e, t)
    ensures || (Fixed(t, name) && t.shelf.files[name] == w.shelf.files[name])
            || (e.Crashing? && LosesLedger(w, t))
  {
    if !e.Crashing? {
      NextShelf(rules, w, e, t);
    }
  }

  /** The record is fixed, and says `content`. */
  predicate FixedAs(w: World, name: string, content: Content) {
    Fixed(w, name) && w.shelf.files[name] == content
  }

  lemma {:induction false} FixedUntilLost(rules: Rules, events: seq<Event>, worlds: seq<World>, i: nat, j: nat,
                                          name: string,
                                          content: Content)
    requires Run(rules, events, worlds) && i < j < |worlds| && FixedAs(worlds[i + 1], name, content)
    ensures FixedAs(worlds[j], name, content) || Unrooted(events, worlds, i, j)
    decreases j
  {
    if j > i + 1 {
      FixedUntilLost(rules, events, worlds, i, j - 1, name, content);
      UnrootedGrows(events, worlds, i, j - 1);
      if FixedAs(worlds[j - 1], name, content) {
        assert Transition(rules)(worlds[j - 1], events[j - 1], worlds[j]);
        NextKeepsFixed(rules, worlds[j - 1], events[j - 1], worlds[j], name);
      }
    }
  }

  /** The request in progress ends at this event with success. */
  predicate Succeeds(rules: Rules, w: World, e: Event) {
    && e.Doing? && e.step.Finishing? && w.process.Some?
    && w.process.value.phase.Executing? && w.process.value.memory.Some?
    && Finishes(rules, w.shelf, w.process.value, e.step.result, e.step.encodes, e.step.settlement).success
  }

  /** The digest that a success settles. */
  function CommittedDigest(rules: Rules, subject: Subject, payload: Bytes): string {
    rules.digestOf(subject.operation, Committed, payload)
  }

  lemma SuccessIsFixed(rules: Rules, w: World, e: Event, t: World)
    requires Backed(w) && Next(rules, w, e, t) && Succeeds(rules, w, e)
    ensures e.step.result.Ok? && e.step.settlement.now.Some?
    ensures var phase := w.process.value.phase;
      var digest := CommittedDigest(rules, phase.subject, e.step.result.value);
      && Fixed(t, RecordName(phase.subject.mutationId))
      && RecordSays(t.shelf.files, phase.subject, Committed, digest, e.step.settlement.now.value)
      && (phase.path == Kernel ==>
            Acknowledges(rules.seal, e.step.settlement.answer, phase.subject, Committed, digest,
              e.step.settlement.now.value))
  {
    var p, step := w.process.value, e.step;
    var b := BookOf(w.shelf, p.memory.value);
    SuccessIsBacked(rules.seal, rules.digestOf, b, p.frozen, p.phase.subject, p.phase.subject.operation, p.phase.path,
                    step.result, step.encodes, step.settlement);
    var digest := CommittedDigest(rules, p.phase.subject, step.result.value);
    SettleKeepsFirm(b, p.phase.subject, Committed, digest, step.settlement.now.value, step.settlement.settle);
  }

  /** Success is backed for ever: in every later world of the run the record of the mutation
      says Committed with the digest of that exact payload, and on the Kernel path the success
      followed an acknowledgment equal in every bound field; unless a crash in between found the
      entry of the ledger directory itself not durable. */
  lemma SuccessStaysBacked(rules: Rules, events: seq<Event>, worlds: seq<World>, i: nat, later: nat)
    requires Run(rules, events, worlds) && worlds[0].process.None?
    requires i < later < |worlds| && Succeeds(rules, worlds[i], events[i])
    ensures events[i].step.result.Ok? && events[i].step.settlement.now.Some?
    ensures var phase, step := worlds[i].process.value.phase, events[i].step;
      var digest := CommittedDigest(rules, phase.subject, step.result.value);
      && (|| RecordSays(worlds[later].shelf.files, phase.subject, Committed, digest, step.settlement.now.value)
          || Unrooted(events, worlds, i, later))
      && (phase.path == Kernel ==>
            Acknowledges(rules.seal, step.settlement.answer, phase.subject, Committed, digest,
              step.settlement.now.value))
  {
    RunIsBacked(rules, events, worlds, i);
    assert Transition(rules)(worlds[i], events[i], worlds[i + 1]);
    SuccessIsFixed(rules, worlds[i], events[i], worlds[i + 1]);
    var name := RecordName(worlds[i].process.value.phase.subject.mutationId);
    FixedUntilLost(rules, events, worlds, i, later, name, worlds[i + 1].shelf.files[name]);
  }

  /** The record says this wherever the run goes on to. */
  ghost predicate SaysForEver(rules: Rules, w: World, subject: Subject, digest: string, at: nat) {
    forall more, after: seq<World> :: Continues(rules, w, more, after) ==>
      RecordSays(after[|more|].shelf.files, subject, Committed, digest, at)
  }

  lemma RootedStaysFixed(rules: Rules, w: World, more: seq<Event>, after: seq<World>, name: string)
    requires Continues(rules, w, more, after) && Fixed(w, name) && w.rooted
    ensures FixedAs(after[|more|], name, w.shelf.files[name])
  {
    var content := w.shelf.files[name];
    var inv := (s: World) => FixedAs(s, name, content) && s.rooted;
    forall s, e, t | inv(s) && Transition(rules)(s, e, t) ensures inv(t) {
      NextKeepsFixed(rules, s, e, t, name);
      NextKeepsRooted(rules, s, e, t);
    }
    StaysTrue(Transition(rules), inv, more, after, 0, |more|);
  }

  /** From the moment of a success, its record stands in every continuation of the run if and
      only if the entry of the ledger directory is durable then. */
  lemma SuccessStaysExactly(rules: Rules, events: seq<Event>, worlds: seq<World>, i: nat)
    requires Run(rules, events, worlds) && worlds[0].process.None? && i < |events|
    requires Succeeds(rules, worlds[i], events[i])
    ensures events[i].step.result.Ok? && events[i].step.settlement.now.Some?
    ensures var subject, step := worlds[i].process.value.phase.subject, events[i].step;
      SaysForEver(rules, worlds[i + 1], subject, CommittedDigest(rules, subject, step.result.value),
                  step.settlement.now.value)
      <==> worlds[i + 1].rooted
  {
    var w := worlds[i + 1];
    RunIsBacked(rules, events, worlds, i);
    assert Transition(rules)(worlds[i], events[i], w);
    SuccessIsFixed(rules, worlds[i], events[i], w);
    var subject := worlds[i].process.value.phase.subject;
    if w.rooted {
      var name := RecordName(subject.mutationId);
      forall more, after | Continues(rules, w, more, after)
        ensures FixedAs(after[|more|], name, w.shelf.files[name])
      {
        RootedStaysFixed(rules, w, more, after, name);
      }
    } else {
      var none := World(EMPTY_SHELF, false, None);
      assert LosesLedger(w, none) && Continues(rules, w, [Crashing], [w, none]);
    }
  }

  // ---------- the freeze is absorbing and exact ----------

  /** This record is in doubt and no process can resolve it. */
  predicate StuckOn(w: World, name: string) {
    && name in w.shelf.files && !Terminal(name, w.shelf.files[name])
    && (w.process.Some? ==>
          w.process.value.phase.Idle?
            && (w.process.value.memory.Some? ==> Frozen(w.process.value.memory.value.recovery)))
  }

  /** A crash can neither take the record away nor change it. */
  predicate Holds(w: World, name: string) {
    name in w.shelf.durable && name in w.shelf.firm
  }

  lemma NextKeepsStuck(rules: Rules, w: World, e: Event, t: World, name: string)
    requires StuckOn(w, name) && Next(rules, w, e, t) && (e.Crashing? ==> w.rooted && Holds(w, name))
    ensures StuckOn(t, name) && t.shelf.files[name] == w.shelf.files[name]
    ensures !e.Crashing? ==> t.shelf == w.shelf
    ensures Holds(w, name) ==> Holds(t, name)
  {
    if StepOf(e).Some? {
      var u := StepWorld(rules, w, e, t);
      if e.step.Authorizing? {
        ReserveKeeps(BookOf(w.shelf, w.process.value.memory.value), e.step.asked, e.step.calls);
      }
    }
  }

  /** A record left in flight by a dead process, settled Unknown or torn keeps every later
      process frozen: nothing is ever executed again, and without a machine crash the directory
      never changes.  A crash changes nothing of this when the record is synced and the ledger
      directory's entry is durable. */
  lemma {:induction false} FreezeIsAbsorbing(rules: Rules, events: seq<Event>, worlds: seq<World>, first: nat,
                                             last: nat,
                                             name: string)
    requires Run(rules, events, worlds) && first <= last < |worlds| && StuckOn(worlds[first], name)
    requires forall k :: first <= k < last && events[k].Crashing? ==> worlds[k].rooted && Holds(worlds[first], name)
    ensures StuckOn(worlds[last], name) && worlds[last].shelf.files[name] == worlds[first].shelf.files[name]
    ensures (forall k :: first <= k < last ==> !events[k].Crashing?) ==> worlds[last].shelf == worlds[first].shelf
    ensures Holds(worlds[first], name) ==> Holds(worlds[last], name)
    ensures last < |events| ==> forall id :: !Executes(worlds[last], events[last], id)
    decreases last
  {
    if first < last {
      FreezeIsAbsorbing(rules, events, worlds, first, last - 1, name);
      assert Transition(rules)(worlds[last - 1], events[last - 1], worlds[last]);
      NextKeepsStuck(rules, worlds[last - 1], events[last - 1], worlds[last], name);
    }
  }

  /** The record is unchanged wherever the run goes on to. */
  ghost predicate UnchangedForEver(rules: Rules, w: World, name: string)
    requires name in w.shelf.files
  {
    forall more, after :: Continues(rules, w, more, after) ==> HasStill(after[|more|], name, w.shelf.files[name])
  }

  predicate HasStill(w: World, name: string, content: Content) {
    name in w.shelf.files && w.shelf.files[name] == content
  }

  /** A crash that takes away or changes a record that no sync has made durable. */
  lemma CrashMayChange(w: World, name: string) returns (t: World)
    requires name in w.shelf.files && !(w.rooted && Holds(w, name))
    ensures forall rules :: Next(rules, w, Crashing, t)
    ensures !HasStill(t, name, w.shelf.files[name])
  {
    if !w.rooted {
      t := World(EMPTY_SHELF, false, None);
    } else {
      var s := w.shelf;
      var other := if s.files[name].Garbled? then Events([]) else Garbled;
      var files := if name !in s.durable then s.files - {name} else s.files[name := other];
      t := World(Shelf(files, files.Keys, files.Keys), true, None);
      assert ShelfCrash(s, t.shelf);
    }
  }

  /** A record in doubt that no process can resolve stays as it is in every continuation of the
      run if and only if it is synced and the ledger directory's entry is durable; and then
      nothing is executed in any. */
  lemma DoubtStaysExactly(rules: Rules, w: World, name: string)
    requires StuckOn(w, name)
    ensures UnchangedForEver(rules, w, name) <==> w.rooted && Holds(w, name)
    ensures w.rooted && Holds(w, name) ==> forall id :: !CanExecute(rules, w, id)
  {
    if w.rooted && Holds(w, name) {
      forall more, after, at: nat | Continues(rules, w, more, after) && at <= |more|
        ensures StuckOn(after[at], name) && HasStill(after[at], name, w.shelf.files[name])
      {
        RootedStaysStuck(rules, w, more, after, at, name);
      }
    } else {
      var t := CrashMayChange(w, name);
      assert Next(rules, w, Crashing, t) && Continues(rules, w, [Crashing], [w, t]);
    }
  }

  lemma RootedStaysStuck(rules: Rules, w: World, more: seq<Event>, after: seq<World>, at: nat, name: string)
    requires Continues(rules, w, more, after) && at <= |more| && StuckOn(w, name) && w.rooted && Holds(w, name)
    ensures StuckOn(after[at], name) && HasStill(after[at], name, w.shelf.files[name])
  {
    var content := w.shelf.files[name];
    var inv := (s: World) => StuckOn(s, name) && s.shelf.files[name] == content && s.rooted && Holds(s, name);
    forall s, e, t | inv(s) && Transition(rules)(s, e, t) ensures inv(t) {
      NextKeepsStuck(rules, s, e, t, name);
      NextKeepsRooted(rules, s, e, t);
    }
    StaysTrue(Transition(rules), inv, more, after, 0, at);
  }

  predicate Dies(e: Event) {
    e.Killed? || e.KilledDuring? || e.Crashing?
  }

  lemma ErrorFreezes(rules: Rules, w: World, e: Event, t: World)
    requires Backed(w) && Next(rules, w, e, t) && e.Doing? && e.step.Finishing? && !Succeeds(rules, w, e)
    ensures t.process.Some? && t.process.value.frozen && t.process.value.phase.Idle?
  {
    var p, step := w.process.value, e.step;
    SuccessIsBacked(rules.seal, rules.digestOf, BookOf(w.shelf, p.memory.value), p.frozen, p.phase.subject,
                    p.phase.subject.operation, p.phase.path, step.result, step.encodes, step.settlement);
  }

  /** An error from finishing a mutation stops the daemon: until the process ends it
      executes nothing more. */
  lemma {:induction false} ErrorStopsDaemon(rules: Rules, events: seq<Event>, worlds: seq<World>, i: nat, j: nat)
    requires Run(rules, events, worlds) && worlds[0].process.None? && i < j < |worlds|
    requires events[i].Doing? && events[i].step.Finishing? && !Succeeds(rules, worlds[i], events[i])
    requires forall k :: i < k < j ==> !Dies(events[k])
    ensures worlds[j].process.Some? && worlds[j].process.value.frozen && worlds[j].process.value.phase.Idle?
    ensures j < |events| ==> forall id :: !Executes(worlds[j], events[j], id)
    decreases j
  {
    assert Transition(rules)(worlds[j - 1], events[j - 1], worlds[j]);
    if i == j - 1 {
      RunIsBacked(rules, events, worlds, i);
      ErrorFreezes(rules, worlds[i], events[i], worlds[j]);
    } else {
      ErrorStopsDaemon(rules, events, worlds, i, j - 1);
    }
  }

  /** A fresh process grants a permit exactly when the directory holds at most 4096 records,
      all terminal, none of them for the asked id, and the system calls work. */
  lemma FreshProcessGrantsExactly(rules: Rules, w: World, asked: Subject, route: Path, scanned: Recovery,
                                  calls: ReserveCalls, open: World)
    requires w.process == Some(Process(None, false, Idle)) && StepTo(rules, w, Opening(scanned), open)
    ensures var t := Authorize(open, asked, route, calls);
      HoldsPermit(t, asked.mutationId) <==>
        (&& |w.shelf.files| <= MAX_LEDGER_RECORDS && AllTerminal(w.shelf.files) && ValidSubject(asked)
         && RecordName(asked.mutationId) !in w.shelf.files
         && calls.create && calls.append.reported && calls.directorySync)
  {
    ReserveKeeps(BookOf(w.shelf, Memory({}, scanned)), asked, calls);
  }

  // ---------- exactly when a writable process has no record in doubt ----------

  /** A refusal whose settlement is not decided and whose second create reports another error
      than "already exists": it leaves an in-flight record without freezing the ledger. */
  predicate Unlatched(rules: Rules, w: World, e: Event) {
    && e.Doing? && e.step.Refusing? && w.process.Some? && w.process.value.phase.Permitted?
    && !e.step.latch.create
    && !Decides(rules.seal, w.process.value.phase.subject, Aborted, e.step.digest, w.process.value.phase.path,
      e.step.settlement)
  }

  /** How one event moves the claim that this process refused nothing without latching. */
  predicate LatchedAfter(rules: Rules, w: World, e: Event, before: bool) {
    if Dies(e) then true else before && !Unlatched(rules, w, e)
  }

  ghost function LatchMoves(rules: Rules): (World, Event, bool) -> bool {
    (w, e, before) => LatchedAfter(rules, w, e, before)
  }

  /** Has the process in hand latched or decided every refusal? */
  ghost predicate Latched(rules: Rules, events: seq<Event>, worlds: seq<World>, at: nat)
    requires at <= |events| <= |worlds|
  {
    Tracked(LatchMoves(rules), true, events, worlds, at)
  }

  /** The process still admits requests. */
  predicate Live(w: World) {
    && w.process.Some? && !w.process.value.frozen && w.process.value.memory.Some?
    && !Frozen(w.process.value.memory.value.recovery)
  }

  /** The process would admit another mutation. */
  predicate Writable(w: World) {
    Live(w) && w.process.value.phase.Idle?
  }

  /** The record is not the one of the request in progress. */
  predicate Aside(w: World, name: string) {
    w.process.Some? && (w.process.value.phase.Idle? || name != RecordName(w.process.value.phase.subject.mutationId))
  }

  /** Every record aside is terminal. */
  ghost predicate AllAsideTerminal(w: World) {
    forall name :: name in w.shelf.files && Aside(w, name) ==> Terminal(name, w.shelf.files[name])
  }

  /** Some record aside is in doubt. */
  ghost predicate SomeAsideInDoubt(w: World) {
    exists name :: name in w.shelf.files && Aside(w, name) && !Terminal(name, w.shelf.files[name])
  }

  ghost predicate Settling(w: World, latched: bool) {
    && Backed(w) && (w.process.None? || w.process.value.memory.None? ==> latched)
    && (Live(w) ==> if latched then AllAsideTerminal(w) else SomeAsideInDoubt(w))
  }

  lemma AuthorizeSettles(rules: Rules, w: World, step: Step, t: World, latched: bool)
    requires Settling(w, latched) && StepTo(rules, w, step, t) && step.Authorizing?
    ensures Settling(t, latched)
  {
    ReserveKeeps(BookOf(w.shelf, w.process.value.memory.value), step.asked, step.calls);
    if Live(t) && !latched {
      var name :| name in w.shelf.files && Aside(w, name) && !Terminal(name, w.shelf.files[name]);
      assert name in t.shelf.files && Aside(t, name) && !Terminal(name, t.shelf.files[name]);
    }
  }

  lemma AbortOthers(seal: Fingerprint, b: Book, subject: Subject, digest: string, path: Path,
                    calls: SettlementCalls, latch: ReserveCalls)
    requires Outstanding(b, subject)
    ensures var after := Abort(seal, b, subject, digest, path, calls, latch).0;
      && after.shelf.files.Keys == b.shelf.files.Keys
      && (forall name :: name in b.shelf.files && name != RecordName(subject.mutationId) ==>
            after.shelf.files[name] == b.shelf.files[name])
      && (!Decides(seal, subject, Aborted, digest, path, calls) && !latch.create ==> after == b)
  {
    SettleThroughDecides(seal, b, subject, Aborted, digest, path, calls);
    var middle := SettleThrough(seal, b, subject, Aborted, digest, path, calls).0;
    if Reaches(seal, subject, Aborted, digest, path, calls) {
      SettleKeeps(b, subject, Aborted, digest, calls.now.value, calls.settle);
    }
    ReserveKeeps(middle, subject, latch);
  }

  lemma RefuseSettles(rules: Rules, w: World, step: Step, t: World, latched: bool)
    requires Settling(w, latched) && StepTo(rules, w, step, t) && step.Refusing?
    ensures Settling(t, latched && !Unlatched(rules, w, Doing(step)))
  {
    var p := w.process.value;
    var b, name := BookOf(w.shelf, p.memory.value), RecordName(p.phase.subject.mutationId);
    RefusalHasTwoOutcomes(rules.seal, b, p.phase.subject, step.digest, p.phase.path, step.settlement, step.latch);
    AbortOthers(rules.seal, b, p.phase.subject, step.digest, p.phase.path, step.settlement, step.latch);
    if Live(t) && !latched {
      var doubt :| doubt in w.shelf.files && Aside(w, doubt) && !Terminal(doubt, w.shelf.files[doubt]);
      assert doubt in t.shelf.files && Aside(t, doubt) && !Terminal(doubt, t.shelf.files[doubt]);
    } else if Live(t) && Unlatched(rules, w, Doing(step)) {
      assert name in t.shelf.files && Aside(t, name) && !Terminal(name, t.shelf.files[name]);
    }
  }

  lemma FinishSettles(rules: Rules, w: World, step: Step, t: World, latched: bool)
    requires Settling(w, latched) && StepTo(rules, w, step, t) && step.Finishing?
    ensures Settling(t, latched)
  {
    var p := w.process.value;
    var b := BookOf(w.shelf, p.memory.value);
    SuccessIsBacked(rules.seal, rules.digestOf, b, p.frozen, p.phase.subject, p.phase.subject.operation, p.phase.path,
                    step.result, step.encodes, step.settlement);
    var f := Finishes(rules, w.shelf, p, step.result, step.encodes, step.settlement);
    if f.success {
      var digest := CommittedDigest(rules, p.phase.subject, step.result.value);
      SettleKeeps(b, p.phase.subject, Committed, digest, step.settlement.now.value, step.settlement.settle);
      if Live(t) && !latched {
        var doubt :| doubt in w.shelf.files && Aside(w, doubt) && !Terminal(doubt, w.shelf.files[doubt]);
        assert doubt in t.shelf.files && Aside(t, doubt) && !Terminal(doubt, t.shelf.files[doubt]);
      }
    }
  }

  lemma ConsumeSettles(rules: Rules, w: World, t: World, latched: bool)
    requires Settling(w, latched) && StepTo(rules, w, Consuming, t)
    ensures Settling(t, latched)
  {
    if Live(t) && !latched {
      var doubt :| doubt in w.shelf.files && Aside(w, doubt) && !Terminal(doubt, w.shelf.files[doubt]);
      assert doubt in t.shelf.files && Aside(t, doubt);
    }
  }

  lemma NextSettles(rules: Rules, w: World, e: Event, t: World, latched: bool)
    requires Settling(w, latched) && Next(rules, w, e, t)
    ensures Settling(t, LatchedAfter(rules, w, e, latched))
  {
    NextKeepsBacked(rules, w, e, t);
    if e.Doing? {
      match e.step
      case Opening(_) =>
      case Authorizing(_, _, _) => AuthorizeSettles(rules, w, e.step, t, latched);
      case Refusing(_, _, _) => RefuseSettles(rules, w, e.step, t, latched);
      case Consuming => ConsumeSettles(rules, w, t, latched);
      case Finishing(_, _, _) => FinishSettles(rules, w, e.step, t, latched);
    } else if e.RootSynced? && Live(t) && !latched {
      var doubt :| doubt in w.shelf.files && Aside(w, doubt) && !Terminal(doubt, w.shelf.files[doubt]);
      assert doubt in t.shelf.files && Aside(t, doubt);
    }
  }

  lemma RunSettles(rules: Rules, events: seq<Event>, worlds: seq<World>, at: nat)
    requires Run(rules, events, worlds) && worlds[0].process.None? && at < |worlds|
    ensures Settling(worlds[at], Latched(rules, events, worlds, at))
  {
    forall w, e, t, latched | Settling(w, latched) && Transition(rules)(w, e, t)
      ensures Settling(t, LatchMoves(rules)(w, e, latched))
    {
      NextSettles(rules, w, e, t, latched);
    }
    TrackedHolds(Transition(rules), (w, latched) => Settling(w, latched), LatchMoves(rules), true, events, worlds, at);
  }

  /** In every state of every run, a process that would admit another mutation sees only terminal
      records exactly when it latched or decided every refusal of its own. */
  lemma WritableMeansAllTerminal(rules: Rules, events: seq<Event>, worlds: seq<World>, at: nat)
    requires Run(rules, events, worlds) && worlds[0].process.None? && at < |worlds| && Writable(worlds[at])
    ensures AllTerminal(worlds[at].shelf.files) <==> Latched(rules, events, worlds, at)
  {
    RunSettles(rules, events, worlds, at);
    if !Latched(rules, events, worlds, at) {
      var w := worlds[at];
      var doubt :| doubt in w.shelf.files && Aside(w, doubt) && !Terminal(doubt, w.shelf.files[doubt]);
    }
  }
}
