/** Every run of a journal directory: appends, failures, deaths, reopenings and crashes.

  Opening does not sync the directory, so a batch that was linked by an append with an
  unknown outcome stays uncertain until the next directory sync or crash.  Crash atomicity
  of an append holds exactly while no such batch is there.
*/
module JournalRuns {
  import opened Framing
  import opened Durability
  import opened Journal
  import opened JournalStore
  import opened JournalWriter
  import opened Runs

  // ---------- exactly when an append is crash atomic ----------

  /** Some visible batch file may be lost in a crash. */
  ghost predicate Uncertain(d: Directory<Content>) {
    exists name :: !IsTempName(name) && Now(d, name).Some? && None in Candidates(d, name)
  }

  /** Every crash leaves the chain, or the chain and the whole batch. */
  ghost predicate AppendIsAtomic(d: Directory<Content>, chain: seq<StoredBatch>, longer: seq<StoredBatch>) {
    forall crashed :: CrashImage(d, crashed) ==> DurablyStores(crashed, chain) || DurablyStores(crashed, longer)
  }

  /** The append is atomic wherever it stops, before the first step included. */
  ghost predicate AtomicFrom(d: Directory<Content>, states: seq<Directory<Content>>, chain: seq<StoredBatch>,
                             longer: seq<StoredBatch>) {
    forall s :: s == d || s in states ==> AppendIsAtomic(s, chain, longer)
  }

  lemma CertainIsDurable(d: Directory<Content>, chain: seq<StoredBatch>, sure: nat)
    requires Shows(d, chain, sure) && !Uncertain(d)
    ensures DurablyStores(d, chain)
  {
    forall i | 0 <= i < |chain| ensures Settled(d, FileName(chain[i]), BatchItem(chain[i])) {
      var name := FileName(chain[i]);
      BatchIsNoTemp(chain[i]);
      VisibleIsItsBatch(d, chain, sure, i);
      OnlyItsBatch(d, chain, sure, i);
    }
  }

  /** Under a batch's name only that batch, or nothing, can be found. */
  lemma OnlyItsBatch(d: Directory<Content>, chain: seq<StoredBatch>, sure: nat, i: nat)
    requires Shows(d, chain, sure) && i < |chain| && None !in Candidates(d, FileName(chain[i]))
    ensures Candidates(d, FileName(chain[i])) == {Some(BatchItem(chain[i]))}
  {
    var name := FileName(chain[i]);
    BatchIsNoTemp(chain[i]);
    VisibleIsItsBatch(d, chain, sure, i);
    forall v | v in Candidates(d, name) ensures v == Some(BatchItem(chain[i])) {
      assert Explained(chain, name, v.value);
      var k :| 0 <= k < |chain| && name == FileName(chain[k]) && v.value == BatchItem(chain[k]);
      assert Visible(d)[FileName(chain[k])].data == Some(chain[k]);
    }
    assert Now(d, name) in Candidates(d, name);
  }

  /** A batch that may be lost is one of the chain. */
  lemma UncertainBatch(d: Directory<Content>, chain: seq<StoredBatch>, sure: nat) returns (i: nat)
    requires Shows(d, chain, sure) && Uncertain(d)
    ensures i < |chain| && None in Candidates(d, FileName(chain[i]))
  {
    var name :| !IsTempName(name) && Now(d, name).Some? && None in Candidates(d, name);
    assert name in Visible(d);
    i :| 0 <= i < |chain| && name == FileName(chain[i]);
  }

  lemma DurableAppendIsAtomic(d: Directory<Content>, chain: seq<StoredBatch>, batch: StoredBatch)
    requires Backed(d, chain + [batch], |chain|) && !NamesOneOf(chain, FileName(batch))
    ensures AppendIsAtomic(d, chain, chain + [batch])
  {
    var longer := chain + [batch];
    forall crashed | CrashImage(d, crashed) ensures DurablyStores(crashed, chain) || DurablyStores(crashed, longer) {
      BackedCrash(d, crashed, longer, |chain|);
      assert longer[|chain|] == batch;
      if Now(crashed, FileName(batch)).Some? {
        SurvivorIsSure(crashed, chain, batch);
      } else {
        AbsentIsDropped(crashed, chain, batch);
      }
    }
  }

  lemma SurvivorIsSure(d: Directory<Content>, chain: seq<StoredBatch>, batch: StoredBatch)
    requires Backed(d, chain + [batch], |chain|) && !NamesOneOf(chain, FileName(batch))
    requires Now(d, FileName(batch)).Some? && Candidates(d, FileName(batch)) == {Now(d, FileName(batch))}
    ensures DurablyStores(d, chain + [batch])
  {
    var longer, name := chain + [batch], FileName(batch);
    BatchIsNoTemp(batch);
    assert Explained(longer, name, Now(d, name).value);
    var k :| 0 <= k < |longer| && name == FileName(longer[k]) && Now(d, name).value == BatchItem(longer[k]);
    assert k < |chain| ==> NamesOneOf(chain, name);
  }

  lemma AbsentIsDropped(d: Directory<Content>, chain: seq<StoredBatch>, batch: StoredBatch)
    requires Backed(d, chain + [batch], |chain|) && Candidates(d, FileName(batch)) == {None}
    ensures DurablyStores(d, chain)
  {
    var longer := chain + [batch];
    forall i | 0 <= i < |chain| ensures Settled(d, FileName(chain[i]), BatchItem(chain[i])) {
      assert longer[i] == chain[i] && Settled(d, FileName(longer[i]), BatchItem(longer[i]));
    }
    forall name, v | v in Candidates(d, name) && v.Some? ensures Explained(chain, name, v.value) {
      assert Explained(longer, name, v.value);
      if !IsTempName(name) {
        var k :| 0 <= k < |longer| && name == FileName(longer[k]) && v.value == BatchItem(longer[k]);
        assert k < |chain| && longer[k] == chain[k];
      }
    }
  }

  /** The crash in which one uncertain batch is lost and everything else visible is kept. */
  lemma LosesBatch(d: Directory<Content>, chain: seq<StoredBatch>, sure: nat,
                   i: nat) returns (crashed: Directory<Content>)
    requires Shows(d, chain, sure) && i < |chain| && None in Candidates(d, FileName(chain[i]))
    ensures CrashImage(d, crashed) && Now(crashed, FileName(chain[i])).None?
    ensures forall name :: name != FileName(chain[i]) && Now(d, name).Some? ==> Now(crashed, name).Some?
    ensures Backed(crashed, chain, sure)
  {
    var name := FileName(chain[i]);
    crashed := CrashWith(d, name, None);
    CrashWithIsImage(d, name, None);
    BackedCrash(d, crashed, chain, sure);
  }

  lemma UncertainIsNotAtomic(d: Directory<Content>, chain: seq<StoredBatch>, sure: nat, batch: StoredBatch)
    requires Shows(d, chain, sure) && Uncertain(d)
    ensures !AppendIsAtomic(d, chain, chain + [batch])
  {
    var i := UncertainBatch(d, chain, sure);
    var crashed := LosesBatch(d, chain, sure, i);
    assert (chain + [batch])[i] == chain[i];
    assert !Settled(crashed, FileName(chain[i]), BatchItem(chain[i]));
  }

  lemma CertainIsAtomic(sum: Checksum, d: Directory<Content>, chain: seq<StoredBatch>, batch: StoredBatch,
                        p: Publication)
    requires Published(d, chain, |chain|, batch, p) && DurablyStores(d, chain) && !NamesOneOf(chain, FileName(batch))
    ensures AtomicFrom(d, p.states, chain, chain + [batch])
  {
    BackedLonger(d, chain, |chain|, batch);
    forall s | s == d || s in p.states ensures AppendIsAtomic(s, chain, chain + [batch]) {
      DurableAppendIsAtomic(s, chain, batch);
    }
  }

  /** An append is crash atomic, wherever it stops, exactly when no visible batch is uncertain
      as it starts. */
  lemma AppendAtomicExactly(sum: Checksum, d: Directory<Content>, chain: seq<StoredBatch>, sure: nat,
                            batch: StoredBatch, staging: Option<string>, calls: PublishCalls)
    requires Linked(sum, chain) && batch.start == NextSequence(chain) && Shows(d, chain, sure) && Fresh(d, staging)
    ensures AtomicFrom(d, Publish(d, batch, staging, calls).states, chain, chain + [batch]) <==> !Uncertain(d)
  {
    if Uncertain(d) {
      UncertainIsNotAtomic(d, chain, sure, batch);
    } else {
      CertainIsDurable(d, chain, sure);
      PublishIsPublished(sum, d, chain, |chain|, batch, staging, calls);
      NextNameIsNew(sum, chain, batch);
      CertainIsAtomic(sum, d, chain, batch, Publish(d, batch, staging, calls));
    }
  }

  // ---------- which states of an append are uncertain ----------

  lemma RestagedCertain(d: Directory<Content>, s: Directory<Content>, staging: string)
    requires IsTempName(staging) && Restaged(d, s, staging, StagingItem)
    ensures Uncertain(s) <==> Uncertain(d)
  {
    forall name | !IsTempName(name) ensures Now(s, name) == Now(d, name) && Candidates(s, name) == Candidates(d, name) {
    }
  }

  lemma SyncedIsCertain(d: Directory<Content>)
    ensures !Uncertain(SyncDirectory(d))
  {
  }

  lemma CrashedIsCertain(d: Directory<Content>, crashed: Directory<Content>)
    requires CrashImage(d, crashed)
    ensures !Uncertain(crashed)
  {
    forall name ensures Candidates(crashed, name) == {Now(crashed, name)} {
      assert SlotSurvives(d, crashed, name);
    }
  }

  /** Linked, and not yet synced. */
  lemma LinkStatesCertain(d: Directory<Content>, batch: StoredBatch, staging: string, calls: PublishCalls)
    requires IsTempName(staging) && Candidates(d, FileName(batch)) == {None}
    requires Now(d, staging) == Some(BatchItem(batch))
    ensures var states := LinkStates(d, batch, staging, calls);
      Uncertain(states[0]) && forall i :: 1 <= i < |states| ==> !Uncertain(states[i])
  {
    var linked := Put(d, FileName(batch), Some(BatchItem(batch)));
    BatchIsNoTemp(batch);
    assert None in Candidates(linked, FileName(batch));
    var synced := SyncDirectory(linked);
    SyncedIsCertain(linked);
    PutRestages(synced, synced, staging, StagingItem, None);
    RestagedCertain(synced, Put(synced, staging, None), staging);
    SyncedIsCertain(Put(synced, staging, None));
  }

  /** The number of states before the link. */
  const STAGED: nat := 3

  /** Does a publication reach its link? */
  predicate Links(d: Directory<Content>, batch: StoredBatch, staging: Option<string>, calls: PublishCalls) {
    Now(d, FileName(batch)).None? && staging.Some? && calls.create && calls.write && calls.link
  }

  /** Is nothing visible uncertain in state `i` of an append? */
  function CertainAt(links: bool, i: nat, before: bool): bool {
    if !links || i < STAGED then before else i > STAGED
  }

  lemma PublishCertain(d: Directory<Content>, batch: StoredBatch, staging: Option<string>, calls: PublishCalls, i: nat)
    requires Fresh(d, staging) && Candidates(d, FileName(batch)) == {None}
    requires i < |Publish(d, batch, staging, calls).states|
    ensures !Uncertain(Publish(d, batch, staging, calls).states[i])
       <==> CertainAt(Links(d, batch, staging, calls), i, !Uncertain(d))
  {
    var staged := StagingStates(d, batch, staging.value, calls);
    var middle := staged[|staged| - 1];
    StagingStatesRestage(d, batch, staging.value, calls);
    if i < |staged| {
      assert staged[i] in staged;
      RestagedCertain(d, staged[i], staging.value);
    } else {
      assert middle in staged && staging.value != FileName(batch) by {
        BatchIsNoTemp(batch);
      }
      StagedIsWhole(d, batch, staging.value, calls);
      LinkStatesCertain(middle, batch, staging.value, calls);
    }
  }

  // ---------- runs ----------

  datatype Event =
    | Appending(mutations: seq<JournalMutation>, staging: Option<string>, calls: PublishCalls)
    | Dying(mutations: seq<JournalMutation>, staging: Option<string>, calls: PublishCalls, after: nat)
    | Killed
    | Crashing
    | Opening

  /** Does this event reach the disk? */
  predicate Reaches(w: World, e: Event) {
    (e.Appending? || e.Dying?) && Publishes(w, e.mutations)
  }

  /** A directory that loads, and what it loads as. */
  ghost predicate Loads(sum: Checksum, dir: Directory<Content>, chain: seq<StoredBatch>) {
    Stores(Visible(dir), chain) && Chained(sum, chain)
  }

  ghost predicate Next(sum: Checksum, w: World, e: Event, after: World) {
    match e
    case Appending(mutations, staging, calls) =>
      w.writer.Some? && Fresh(w.dir, staging) && after == AfterAppend(sum, w, mutations, staging, calls)
    case Dying(mutations, staging, calls, n) =>
      && Publishes(w, mutations) && Fresh(w.dir, staging)
      && n < |Publishing(sum, w, mutations, staging, calls).states|
      && after == World(Publishing(sum, w, mutations, staging, calls).states[n], None)
    case Killed => after == World(w.dir, None)
    case Crashing => CrashImage(w.dir, after.dir) && after.writer.None?
    case Opening =>
      && w.writer.None? && after.dir == w.dir
      && (match after.writer
          case Some(writer) => Loads(sum, w.dir, writer.chain) && writer.healthy
          case None => forall chain :: !Loads(sum, w.dir, chain))
  }

  ghost function Step(sum: Checksum): (World, Event, World) -> bool {
    (w, e, after) => Next(sum, w, e, after)
  }

  ghost predicate Run(sum: Checksum, events: seq<Event>, worlds: seq<World>) {
    IsRun(Step(sum), events, worlds)
  }

  /** Every batch a crash may leave belongs to one linked chain, whose first `sure` batches no
      crash can take away; a working writer knows that whole chain. */
  ghost predicate Good(sum: Checksum, w: World, full: seq<StoredBatch>, sure: nat) {
    && Linked(sum, full) && Backed(w.dir, full, sure)
    && (w.writer.Some? && w.writer.value.healthy ==> w.writer.value.chain == full && Stores(Visible(w.dir), full))
  }

  /** Did the append report success? */
  predicate Acknowledges(sum: Checksum, w: World, e: Event) {
    e.Appending? && Publishes(w, e.mutations) && Publishing(sum, w, e.mutations, e.staging, e.calls).result.Ok?
  }

  /** An append that reaches the disk, on the chain and on the disk. */
  lemma AppendIsPublished(sum: Checksum, d: Directory<Content>, full: seq<StoredBatch>, sure: nat,
                          mutations: seq<JournalMutation>, staging: Option<string>, calls: PublishCalls)
    requires Linked(sum, full) && Shows(d, full, sure) && Appendable(full, mutations) && Fresh(d, staging)
    ensures var batch := BatchFor(sum, full, mutations);
      Linked(sum, full + [batch]) && Published(d, full, sure, batch, Publish(d, batch, staging, calls))
  {
    AppendExtends(sum, full, mutations);
    PublishIsPublished(sum, d, full, sure, BatchFor(sum, full, mutations), staging, calls);
  }

  lemma OutcomeIsGood(sum: Checksum, end: Directory<Content>, full: seq<StoredBatch>, longer: seq<StoredBatch>,
                      sure: nat, result: Result<(), JournalError>)
    returns (more: seq<StoredBatch>, surely: nat)
    requires Linked(sum, full) && Linked(sum, longer) && full <= longer && |longer| == |full| + 1 && sure <= |full|
    requires EndsAs(end, full, sure, longer, result)
    ensures Good(sum, World(end, Some(Writer(if result.Ok? then longer else full, result.Ok?))), more, surely)
    ensures full <= more && sure <= surely && |more| - surely <= |full| - sure + 1
    ensures result.Ok? ==> more == longer && surely == |more|
  {
    more := if result.Ok? || result == Err(Poisoned) then longer else full;
    surely := if result.Ok? then |longer| else sure;
  }

  lemma PublishingKeepsGood(sum: Checksum, w: World, e: Event, full: seq<StoredBatch>, sure: nat)
    returns (more: seq<StoredBatch>, surely: nat)
    requires e.Appending? && Good(sum, w, full, sure) && Publishes(w, e.mutations) && Fresh(w.dir, e.staging)
    ensures Good(sum, AfterAppend(sum, w, e.mutations, e.staging, e.calls), more, surely)
    ensures full <= more && sure <= surely && |more| - surely <= |full| - sure + 1
    ensures Acknowledges(sum, w, e) ==> more == full + [Appended(sum, w, e.mutations)] && surely == |more|
  {
    var p := Publishing(sum, w, e.mutations, e.staging, e.calls);
    AppendIsPublished(sum, w.dir, full, sure, e.mutations, e.staging, e.calls);
    more, surely := OutcomeIsGood(
      sum, Final(w.dir, p.states), full, full + [Appended(sum, w, e.mutations)], sure, p.result);
  }

  lemma AppendKeepsGood(sum: Checksum, w: World, e: Event, after: World, full: seq<StoredBatch>, sure: nat)
    returns (more: seq<StoredBatch>, surely: nat)
    requires e.Appending? && Good(sum, w, full, sure) && Next(sum, w, e, after)
    ensures Good(sum, after, more, surely) && full <= more && sure <= surely
    ensures |more| - surely <= |full| - sure + (if Publishes(w, e.mutations) then 1 else 0)
    ensures Acknowledges(sum, w, e) ==> more == after.writer.value.chain && surely == |more|
  {
    if Publishes(w, e.mutations) {
      more, surely := PublishingKeepsGood(sum, w, e, full, sure);
    } else {
      more, surely := full, sure;
    }
  }

  lemma StateIsBacked(d: Directory<Content>, full: seq<StoredBatch>, sure: nat, batch: StoredBatch, p: Publication,
                      n: nat)
    requires Published(d, full, sure, batch, p) && n < |p.states|
    ensures Backed(p.states[n], full + [batch], sure)
  {
    assert p.states[n] in p.states;
  }

  lemma DeathKeepsGood(sum: Checksum, w: World, e: Event, after: World, full: seq<StoredBatch>, sure: nat)
    returns (more: seq<StoredBatch>)
    requires e.Dying? && Good(sum, w, full, sure) && Next(sum, w, e, after)
    ensures Good(sum, after, more, sure) && full <= more && |more| == |full| + 1
  {
    var batch := Appended(sum, w, e.mutations);
    AppendIsPublished(sum, w.dir, full, sure, e.mutations, e.staging, e.calls);
    StateIsBacked(w.dir, full, sure, batch, Publishing(sum, w, e.mutations, e.staging, e.calls), e.after);
    more := full + [batch];
  }

  lemma OpeningKeepsGood(sum: Checksum, w: World, after: World, full: seq<StoredBatch>, sure: nat)
    returns (more: seq<StoredBatch>)
    requires Good(sum, w, full, sure) && Next(sum, w, Opening, after)
    ensures Good(sum, after, more, sure) && more <= full && full[..sure] <= more
  {
    more := full;
    if after.writer.Some? {
      more := after.writer.value.chain;
      StoredIsBacked(sum, w.dir, full, sure, more);
    }
  }

  /** One step loses no sure batch, and makes a whole acknowledged chain sure. */
  lemma StepKeepsGood(sum: Checksum, w: World, e: Event, after: World, full: seq<StoredBatch>, sure: nat)
    returns (more: seq<StoredBatch>, surely: nat)
    requires Good(sum, w, full, sure) && Next(sum, w, e, after)
    ensures Good(sum, after, more, surely) && full[..sure] <= more[..surely]
    ensures |more| - surely <= |full| - sure + (if Reaches(w, e) then 1 else 0)
    ensures Acknowledges(sum, w, e) ==> more == after.writer.value.chain && surely == |more|
  {
    if e.Appending? {
      more, surely := AppendKeepsGood(sum, w, e, after, full, sure);
    } else {
      more := QuietStepKeepsGood(sum, w, e, after, full, sure);
      surely := sure;
    }
  }

  lemma QuietStepKeepsGood(sum: Checksum, w: World, e: Event, after: World, full: seq<StoredBatch>, sure: nat)
    returns (more: seq<StoredBatch>)
    requires !e.Appending? && Good(sum, w, full, sure) && Next(sum, w, e, after)
    ensures Good(sum, after, more, sure) && full[..sure] <= more[..sure]
    ensures |more| <= |full| + (if Reaches(w, e) then 1 else 0)
  {
    more := full;
    if e.Dying? {
      more := DeathKeepsGood(sum, w, e, after, full, sure);
    } else if e.Crashing? {
      BackedCrash(w.dir, after.dir, full, sure);
    } else if e.Opening? {
      more := OpeningKeepsGood(sum, w, after, full, sure);
    }
  }

  /** No crash can take `kept` away. */
  ghost predicate Keeps(sum: Checksum, w: World, kept: seq<StoredBatch>) {
    exists full, sure: nat :: Good(sum, w, full, sure) && kept <= full[..sure]
  }

  lemma StepKeeps(sum: Checksum, w: World, e: Event, after: World, kept: seq<StoredBatch>)
    requires Keeps(sum, w, kept) && Next(sum, w, e, after)
    ensures Keeps(sum, after, kept)
  {
    var full, sure: nat :| Good(sum, w, full, sure) && kept <= full[..sure];
    var more, surely := StepKeepsGood(sum, w, e, after, full, sure);
  }

  lemma RunKeeps(sum: Checksum, events: seq<Event>, worlds: seq<World>, from: nat, kept: seq<StoredBatch>, at: nat)
    requires Run(sum, events, worlds) && from <= at < |worlds| && Keeps(sum, worlds[from], kept)
    ensures Keeps(sum, worlds[at], kept)
  {
    forall w, e, after | Keeps(sum, w, kept) && Step(sum)(w, e, after) ensures Keeps(sum, after, kept) {
      StepKeeps(sum, w, e, after, kept);
    }
    StaysTrue(Step(sum), w => Keeps(sum, w, kept), events, worlds, from, at);
  }

  lemma GoodAt(sum: Checksum, events: seq<Event>, worlds: seq<World>, at: nat)
    returns (full: seq<StoredBatch>, sure: nat)
    requires Run(sum, events, worlds) && Starts(worlds[0]) && at < |worlds|
    ensures Good(sum, worlds[at], full, sure)
  {
    StartIsGood(sum, worlds[0]);
    RunKeeps(sum, events, worlds, 0, [], at);
    full, sure :| Good(sum, worlds[at], full, sure) && [] <= full[..sure];
  }

  /** Whatever the directory loads as, and whatever a working writer knows, begins with `kept`. */
  ghost predicate Holds(sum: Checksum, w: World, kept: seq<StoredBatch>) {
    && (forall chain :: Loads(sum, w.dir, chain) ==> kept <= chain)
    && (w.writer.Some? && w.writer.value.healthy ==> kept <= w.writer.value.chain)
  }

  lemma KeptIsHeld(sum: Checksum, w: World, kept: seq<StoredBatch>)
    requires Keeps(sum, w, kept)
    ensures Holds(sum, w, kept)
  {
    var full, sure: nat :| Good(sum, w, full, sure) && kept <= full[..sure];
    forall chain | Loads(sum, w.dir, chain) ensures kept <= chain {
      StoredIsBacked(sum, w.dir, full, sure, chain);
    }
  }

  lemma AcknowledgedIsGood(sum: Checksum, w: World, e: Event, after: World, full: seq<StoredBatch>, sure: nat)
    requires Good(sum, w, full, sure) && Next(sum, w, e, after) && Acknowledges(sum, w, e)
    ensures after.writer.Some? && Good(sum, after, after.writer.value.chain, |after.writer.value.chain|)
  {
    var more, surely := AppendKeepsGood(sum, w, e, after, full, sure);
  }

  lemma AcknowledgedIsKept(sum: Checksum, w: World, e: Event, after: World)
    requires Keeps(sum, w, []) && Next(sum, w, e, after) && Acknowledges(sum, w, e)
    ensures KeepsAllOf(sum, after, after)
  {
    var full, sure: nat :| Good(sum, w, full, sure) && [] <= full[..sure];
    AcknowledgedIsGood(sum, w, e, after, full, sure);
    AllSureIsKept(sum, after, after.writer.value.chain);
  }

  lemma AllSureIsKept(sum: Checksum, w: World, chain: seq<StoredBatch>)
    requires Good(sum, w, chain, |chain|)
    ensures Keeps(sum, w, chain)
  {
    assert chain <= chain[..|chain|];
  }

  /** The journal of a directory that was never used. */
  ghost predicate Starts(w: World) {
    w.dir == map[] && w.writer.None?
  }

  lemma StartIsGood(sum: Checksum, w: World)
    requires Starts(w)
    ensures Good(sum, w, [], 0) && Keeps(sum, w, []) && !Uncertain(w.dir)
  {
    assert Good(sum, w, [], 0);
  }

  /** A batch whose append reported success is part of every journal loaded afterwards, over
      appends that fail or poison the writer, deaths, crashes and reopenings; and every later
      writer continues from it. */
  lemma AcknowledgedStays(sum: Checksum, events: seq<Event>, worlds: seq<World>, acked: nat, at: nat)
    requires Run(sum, events, worlds) && Starts(worlds[0])
    requires acked < at < |worlds| && Acknowledges(sum, worlds[acked], events[acked])
    ensures worlds[acked + 1].writer.Some? && Holds(sum, worlds[at], worlds[acked + 1].writer.value.chain)
  {
    KeepsSince(sum, events, worlds, acked, at);
    KeptIsHeld(sum, worlds[at], worlds[acked + 1].writer.value.chain);
  }

  /** No crash can take away what the writer of `origin` knows. */
  ghost predicate KeepsAllOf(sum: Checksum, origin: World, w: World) {
    origin.writer.Some? && Keeps(sum, w, origin.writer.value.chain)
  }

  lemma KeepsSince(sum: Checksum, events: seq<Event>, worlds: seq<World>, acked: nat, at: nat)
    requires Run(sum, events, worlds) && Starts(worlds[0])
    requires acked < at < |worlds| && Acknowledges(sum, worlds[acked], events[acked])
    ensures KeepsAllOf(sum, worlds[acked + 1], worlds[at])
  {
    StartIsGood(sum, worlds[0]);
    forall w, e, after | Keeps(sum, w, []) && Step(sum)(w, e, after) ensures Keeps(sum, after, []) {
      StepKeeps(sum, w, e, after, []);
    }
    forall w, e, after | Keeps(sum, w, []) && Step(sum)(w, e, after) && Acknowledges(sum, w, e)
      ensures KeepsAllOf(sum, after, after)
    {
      AcknowledgedIsKept(sum, w, e, after);
    }
    forall origin: World, w, e, after | KeepsAllOf(sum, origin, w) && Step(sum)(w, e, after)
      ensures KeepsAllOf(sum, origin, after)
    {
      StepKeeps(sum, w, e, after, origin.writer.value.chain);
    }
    HoldsSince(Step(sum), w => Keeps(sum, w, []), (w, e) => Acknowledges(sum, w, e),
               (origin, w) => KeepsAllOf(sum, origin, w), events, worlds, acked, at);
  }

  // ---------- exactly when a directory loads ----------

  /** The batches that are visible are the first `n`. */
  ghost predicate ShowsFirst(d: Directory<Content>, full: seq<StoredBatch>, n: nat) {
    n <= |full| && forall i :: 0 <= i < |full| ==> (Now(d, FileName(full[i])).Some? <==> i < n)
  }

  lemma FirstAreStored(sum: Checksum, d: Directory<Content>, full: seq<StoredBatch>, sure: nat, n: nat)
    requires Linked(sum, full) && Backed(d, full, sure) && ShowsFirst(d, full, n)
    ensures Stores(Visible(d), full[..n]) && Linked(sum, full[..n])
  {
    LinkedPrefix(sum, full, n);
    VisibleIsExplained(d, full, sure);
    forall i | 0 <= i < n
      ensures FileName(full[i]) in Visible(d) && Visible(d)[FileName(full[i])].data == Some(full[i])
    {
      VisibleBatch(sum, d, full, sure, i);
    }
    forall name | name in Visible(d)
      ensures Visible(d)[name].kind == Regular && (IsTempName(name) || NamesOneOf(full[..n], name))
    {
      assert Explained(full, name, Visible(d)[name]);
      if !IsTempName(name) {
        var k :| 0 <= k < |full| && name == FileName(full[k]) && Visible(d)[name] == BatchItem(full[k]);
        assert k < n && full[..n][k] == full[k];
      }
    }
  }

  lemma VisibleBatch(sum: Checksum, d: Directory<Content>, full: seq<StoredBatch>, sure: nat, i: nat)
    requires Linked(sum, full) && Backed(d, full, sure) && i < |full| && Now(d, FileName(full[i])).Some?
    ensures Now(d, FileName(full[i])) == Some(BatchItem(full[i]))
  {
    var name := FileName(full[i]);
    BatchIsNoTemp(full[i]);
    VisibleIsExplained(d, full, sure);
    assert Explained(full, name, Visible(d)[name]);
    var k :| 0 <= k < |full| && name == FileName(full[k]) && Visible(d)[name] == BatchItem(full[k]);
    SameNameSamePlace(sum, full, i, k);
  }

  lemma StoredShowsFirst(sum: Checksum, d: Directory<Content>, full: seq<StoredBatch>, sure: nat,
                         stored: seq<StoredBatch>)
    requires Linked(sum, full) && Backed(d, full, sure) && Linked(sum, stored) && Stores(Visible(d), stored)
    ensures stored <= full && ShowsFirst(d, full, |stored|)
  {
    StoredIsBacked(sum, d, full, sure, stored);
    forall i | 0 <= i < |full| ensures Now(d, FileName(full[i])).Some? <==> i < |stored| {
      StoredShows(sum, Visible(d), full, stored, i);
    }
  }

  lemma StoredShows(sum: Checksum, files: map<string, BatchFile>, full: seq<StoredBatch>, stored: seq<StoredBatch>,
                    i: nat)
    requires Linked(sum, full) && stored <= full && Stores(files, stored) && i < |full|
    ensures FileName(full[i]) in files <==> i < |stored|
  {
    if i < |stored| {
      assert stored[i] == full[i];
    } else if FileName(full[i]) in files {
      BatchIsNoTemp(full[i]);
      var k :| 0 <= k < |stored| && FileName(full[i]) == FileName(stored[k]);
      SameNameSamePlace(sum, full, i, k);
    }
  }

  /** `chain` is all that is visible of `full`, without a gap, and leaves a sequence number unused. */
  ghost predicate IsVisiblePart(d: Directory<Content>, full: seq<StoredBatch>, chain: seq<StoredBatch>) {
    chain <= full && ShowsFirst(d, full, |chain|) && NextSequence(chain) < TWO_TO_THE_64
  }

  lemma PartLoads(sum: Checksum, d: Directory<Content>, full: seq<StoredBatch>, sure: nat, chain: seq<StoredBatch>)
    requires Linked(sum, full) && Backed(d, full, sure)
    ensures Loads(sum, d, chain) <==> IsVisiblePart(d, full, chain)
  {
    if Loads(sum, d, chain) {
      StoredShowsFirst(sum, d, full, sure, chain);
    } else if IsVisiblePart(d, full, chain) {
      assert chain == full[..|chain|];
      FirstAreStored(sum, d, full, sure, |chain|);
    }
  }

  /** In every reachable state one chain explains the directory, and the journal loads exactly
      when what is visible of that chain has no gap and leaves a sequence number unused; what it
      loads as is then that part of the chain. */
  lemma LoadsExactly(sum: Checksum, events: seq<Event>, worlds: seq<World>, at: nat)
    returns (full: seq<StoredBatch>, sure: nat)
    requires Run(sum, events, worlds) && Starts(worlds[0]) && at < |worlds|
    ensures Good(sum, worlds[at], full, sure)
    ensures forall chain :: Loads(sum, worlds[at].dir, chain) <==> IsVisiblePart(worlds[at].dir, full, chain)
  {
    full, sure := GoodAt(sum, events, worlds, at);
    forall chain ensures Loads(sum, worlds[at].dir, chain) <==> IsVisiblePart(worlds[at].dir, full, chain) {
      PartLoads(sum, worlds[at].dir, full, sure, chain);
    }
  }

  // ---------- crash atomicity over runs ----------

  /** How one event moves certainty: a success or a crash settles everything, an unknown outcome or
      a death right after the link settles nothing, and all else leaves it as it was. */
  predicate CertainAfter(sum: Checksum, w: World, e: Event, before: bool) {
    if e.Crashing? then true
    else if !Reaches(w, e) then before
    else if e.Dying? then CertainAt(Links(w.dir, Appended(sum, w, e.mutations), e.staging, e.calls), e.after, before)
    else
      var result := Publishing(sum, w, e.mutations, e.staging, e.calls).result;
      result.Ok? || (result != Err(Poisoned) && before)
  }

  ghost function Moves(sum: Checksum): (World, Event, bool) -> bool {
    (w, e, before) => CertainAfter(sum, w, e, before)
  }

  /** Has every batch linked since the last crash been followed by a directory sync? */
  ghost predicate Certain(sum: Checksum, events: seq<Event>, worlds: seq<World>, at: nat)
    requires at <= |events| <= |worlds|
  {
    Tracked(Moves(sum), true, events, worlds, at)
  }

  lemma AppendedIsNew(sum: Checksum, w: World, full: seq<StoredBatch>, sure: nat, mutations: seq<JournalMutation>)
    requires Good(sum, w, full, sure) && Publishes(w, mutations)
    ensures Candidates(w.dir, FileName(Appended(sum, w, mutations))) == {None}
  {
    NextNameIsNew(sum, full, Appended(sum, w, mutations));
    NewNameIsAbsent(w.dir, full, sure, Appended(sum, w, mutations));
  }

  /** A publication reaches its link exactly when it succeeds or ends unknown. */
  lemma OutcomeTellsCertain(d: Directory<Content>, batch: StoredBatch, staging: Option<string>, calls: PublishCalls)
    requires Fresh(d, staging) && Candidates(d, FileName(batch)) == {None} && Now(d, FileName(batch)).None?
    ensures var p := Publish(d, batch, staging, calls);
      !Uncertain(Final(d, p.states)) <==> (p.result.Ok? || (p.result != Err(Poisoned) && !Uncertain(d)))
  {
    var p := Publish(d, batch, staging, calls);
    if p.states != [] {
      PublishCertain(d, batch, staging, calls, |p.states| - 1);
    }
  }

  /** Over every run: some visible batch may still be lost exactly when an append ended unknown,
      or died between its link and its directory sync, since the last directory sync or crash. */
  lemma UncertainExactly(sum: Checksum, events: seq<Event>, worlds: seq<World>, at: nat)
    requires Run(sum, events, worlds) && Starts(worlds[0]) && at < |worlds|
    ensures Uncertain(worlds[at].dir) <==> !Certain(sum, events, worlds, at)
  {
    StartIsGood(sum, worlds[0]);
    forall w: World, e, after: World | Keeps(sum, w, []) && Step(sum)(w, e, after)
      ensures Keeps(sum, after, []) && (!Uncertain(after.dir) <==> Moves(sum)(w, e, !Uncertain(w.dir)))
    {
      StepKeeps(sum, w, e, after, []);
      var full, sure: nat :| Good(sum, w, full, sure) && [] <= full[..sure];
      StepCertain(sum, w, e, after, full, sure);
    }
    TrackedExactly(Step(sum), w => Keeps(sum, w, []), (w: World) => !Uncertain(w.dir), Moves(sum), events, worlds, at);
  }

  lemma StepCertain(sum: Checksum, w: World, e: Event, after: World, full: seq<StoredBatch>, sure: nat)
    requires Good(sum, w, full, sure) && Next(sum, w, e, after)
    ensures !Uncertain(after.dir) <==> CertainAfter(sum, w, e, !Uncertain(w.dir))
  {
    if e.Crashing? {
      CrashedIsCertain(w.dir, after.dir);
    } else if Reaches(w, e) {
      var batch := Appended(sum, w, e.mutations);
      AppendedIsNew(sum, w, full, sure, e.mutations);
      assert Now(w.dir, FileName(batch)) in Candidates(w.dir, FileName(batch));
      if e.Dying? {
        PublishCertain(w.dir, batch, e.staging, e.calls, e.after);
      } else {
        OutcomeTellsCertain(w.dir, batch, e.staging, e.calls);
      }
    }
  }

  /** The exact condition for crash atomicity, over runs. */
  lemma RunAppendAtomicExactly(sum: Checksum, events: seq<Event>, worlds: seq<World>, at: nat,
                               mutations: seq<JournalMutation>, staging: Option<string>, calls: PublishCalls)
    requires Run(sum, events, worlds) && Starts(worlds[0]) && at < |worlds|
    requires Publishes(worlds[at], mutations) && Fresh(worlds[at].dir, staging)
    ensures var w := worlds[at];
      AtomicFrom(w.dir, Publishing(sum, w, mutations, staging, calls).states, w.writer.value.chain,
                 w.writer.value.chain + [Appended(sum, w, mutations)])
      <==> Certain(sum, events, worlds, at)
  {
    var full, sure := GoodAt(sum, events, worlds, at);
    UncertainExactly(sum, events, worlds, at);
    AppendAtomicExactly(sum, worlds[at].dir, full, sure, Appended(sum, worlds[at], mutations), staging, calls);
  }

  // ---------- runs that always reload ----------

  /** Every append that reached the disk began with nothing uncertain. */
  ghost predicate AppendsBeginCertain(sum: Checksum, events: seq<Event>, worlds: seq<World>)
    requires |worlds| == |events| + 1
  {
    forall i :: 0 <= i < |events| && Reaches(worlds[i], events[i]) ==> Certain(sum, events, worlds, i)
  }

  ghost function CertainStep(sum: Checksum): (World, Event, World) -> bool {
    (w, e, after) => Next(sum, w, e, after) && (Reaches(w, e) ==> !Uncertain(w.dir))
  }

  lemma CertainRun(sum: Checksum, events: seq<Event>, worlds: seq<World>)
    requires Run(sum, events, worlds) && Starts(worlds[0]) && AppendsBeginCertain(sum, events, worlds)
    ensures IsRun(CertainStep(sum), events, worlds)
  {
    forall i | 0 <= i < |events| ensures CertainStep(sum)(worlds[i], events[i], worlds[i + 1]) {
      UncertainExactly(sum, events, worlds, i);
    }
  }

  /** All batches but one are sure. */
  ghost predicate OneUnsure(sum: Checksum, w: World) {
    exists full, sure: nat :: Good(sum, w, full, sure) && |full| <= sure + 1
  }

  lemma StepKeepsOneUnsure(sum: Checksum, w: World, e: Event, after: World)
    requires OneUnsure(sum, w) && Next(sum, w, e, after) && (Reaches(w, e) ==> !Uncertain(w.dir))
    ensures OneUnsure(sum, after)
  {
    var full, sure: nat :| Good(sum, w, full, sure) && |full| <= sure + 1;
    if Reaches(w, e) {
      CertainIsDurable(w.dir, full, sure);
      var more, surely := StepKeepsGood(sum, w, e, after, full, |full|);
    } else {
      var more, surely := StepKeepsGood(sum, w, e, after, full, sure);
    }
  }

  lemma AtMostOneUnsure(sum: Checksum, events: seq<Event>, worlds: seq<World>, at: nat)
    requires Run(sum, events, worlds) && Starts(worlds[0]) && at < |worlds| && AppendsBeginCertain(sum, events, worlds)
    ensures OneUnsure(sum, worlds[at])
  {
    CertainRun(sum, events, worlds);
    StartIsGood(sum, worlds[0]);
    assert OneUnsure(sum, worlds[0]);
    forall w, e, after | OneUnsure(sum, w) && CertainStep(sum)(w, e, after) ensures OneUnsure(sum, after) {
      StepKeepsOneUnsure(sum, w, e, after);
    }
    StaysTrue(CertainStep(sum), w => OneUnsure(sum, w), events, worlds, 0, at);
  }

  lemma OneUnsureShowsFirst(d: Directory<Content>, full: seq<StoredBatch>, sure: nat) returns (n: nat)
    requires Backed(d, full, sure) && |full| <= sure + 1
    ensures ShowsFirst(d, full, n)
  {
    n := if full != [] && Now(d, FileName(full[|full| - 1])).None? then |full| - 1 else |full|;
    forall i | 0 <= i < sure ensures Now(d, FileName(full[i])).Some? {
      assert Settled(d, FileName(full[i]), BatchItem(full[i]));
    }
  }

  /** A run in which every append begins certain can reload its journal in every state, as long
      as a sequence number is left. */
  lemma CertainRunsReload(sum: Checksum, events: seq<Event>, worlds: seq<World>, at: nat)
    returns (chain: seq<StoredBatch>)
    requires Run(sum, events, worlds) && Starts(worlds[0]) && at < |worlds| && AppendsBeginCertain(sum, events, worlds)
    ensures Stores(Visible(worlds[at].dir), chain) && Linked(sum, chain)
    ensures NextSequence(chain) < TWO_TO_THE_64 ==> Loads(sum, worlds[at].dir, chain)
  {
    AtMostOneUnsure(sum, events, worlds, at);
    var full, sure: nat :| Good(sum, worlds[at], full, sure) && |full| <= sure + 1;
    var n := OneUnsureShowsFirst(worlds[at].dir, full, sure);
    FirstAreStored(sum, worlds[at].dir, full, sure, n);
    chain := full[..n];
  }

  /** All calls succeed but the sync of the directory after the link. */
  const UNSYNCED := PublishCalls(true, true, true, true, false, true, true)

  lemma UnknownLink(sum: Checksum, d: Directory<Content>, chain: seq<StoredBatch>, sure: nat,
                    mutations: seq<JournalMutation>, staging: string)
    requires Linked(sum, chain) && Shows(d, chain, sure) && Appendable(chain, mutations) && Fresh(d, Some(staging))
    ensures var batch := BatchFor(sum, chain, mutations);
      var p := Publish(d, batch, Some(staging), UNSYNCED);
      && p.result == Err(Poisoned) && p.states != [] && Linked(sum, chain + [batch])
      && Shows(Final(d, p.states), chain + [batch], sure) && None in Candidates(Final(d, p.states), FileName(batch))
      && (forall name :: None in Candidates(d, name) ==> None in Candidates(Final(d, p.states), name))
      && (forall name :: name != staging && name != FileName(batch) ==>
        Now(Final(d, p.states), name) == Now(d, name))
  {
    var batch := BatchFor(sum, chain, mutations);
    AppendIsPublished(sum, d, chain, sure, mutations, Some(staging), UNSYNCED);
    NextNameIsNew(sum, chain, batch);
    NewNameIsAbsent(d, chain, sure, batch);
    assert Now(d, FileName(batch)) in Candidates(d, FileName(batch));
    UnsyncedEnd(d, batch, staging);
  }

  lemma UnsyncedEnd(d: Directory<Content>, batch: StoredBatch, staging: string)
    requires Now(d, FileName(batch)).None? && None in Candidates(d, FileName(batch))
    ensures var p := Publish(d, batch, Some(staging), UNSYNCED);
      && p.result == Err(Poisoned) && p.states != [] && None in Candidates(Final(d, p.states), FileName(batch))
      && (forall name :: None in Candidates(d, name) ==> None in Candidates(Final(d, p.states), name))
      && (forall name :: name != staging && name != FileName(batch) ==>
        Now(Final(d, p.states), name) == Now(d, name))
  {
  }

  /** A later batch that survives without an earlier one cannot be loaded. */
  lemma GapDoesNotLoad(sum: Checksum, d: Directory<Content>, full: seq<StoredBatch>, sure: nat, i: nat, k: nat)
    requires Linked(sum, full) && Backed(d, full, sure) && i < k < |full|
    requires Now(d, FileName(full[i])).None? && Now(d, FileName(full[k])).Some?
    ensures forall loaded :: !Loads(sum, d, loaded)
  {
    forall loaded | Loads(sum, d, loaded) ensures false {
      StoredShowsFirst(sum, d, full, sure, loaded);
    }
  }

  /** The failing input: an append whose directory sync fails, a reopening, and a second append
      that stops after its link.  Some crash then keeps the second batch without the first, and no
      journal can be loaded any more, whatever the history before. */
  lemma UnknownAppendCanLoseTheJournal(sum: Checksum, d: Directory<Content>, chain: seq<StoredBatch>, sure: nat,
                                       first: seq<JournalMutation>, second: seq<JournalMutation>, a: string, b: string)
    returns (crashed: Directory<Content>)
    requires Linked(sum, chain) && Shows(d, chain, sure) && Appendable(chain, first)
    requires Appendable(chain + [BatchFor(sum, chain, first)], second)
    requires Fresh(d, Some(a)) && Fresh(d, Some(b)) && a != b
    ensures var longer := chain + [BatchFor(sum, chain, first)];
      var p := Publish(d, BatchFor(sum, chain, first), Some(a), UNSYNCED);
      var q := Publish(Final(d, p.states), BatchFor(sum, longer, second), Some(b), UNSYNCED);
      && p.result == Err(Poisoned) && Stores(Visible(Final(d, p.states)), longer)
      && q.states != [] && CrashImage(Final(d, q.states), crashed)
      && (forall loaded :: !Loads(sum, crashed, loaded))
  {
    var lost := BatchFor(sum, chain, first);
    var longer := chain + [lost];
    UnknownLink(sum, d, chain, sure, first, a);
    assert longer[|longer| - 1] == lost;
    var unsynced := Final(d, Publish(d, lost, Some(a), UNSYNCED).states);
    BatchIsNoTemp(lost);
    assert Fresh(unsynced, Some(b));
    crashed := SecondUnknownLink(sum, unsynced, longer, sure, second, b);
  }

  lemma SecondUnknownLink(sum: Checksum, d: Directory<Content>, chain: seq<StoredBatch>, sure: nat,
                          mutations: seq<JournalMutation>, staging: string)
    returns (crashed: Directory<Content>)
    requires Linked(sum, chain) && Shows(d, chain, sure) && Appendable(chain, mutations) && Fresh(d, Some(staging))
    requires chain != [] && None in Candidates(d, FileName(chain[|chain| - 1]))
    ensures var q := Publish(d, BatchFor(sum, chain, mutations), Some(staging), UNSYNCED);
      q.states != [] && CrashImage(Final(d, q.states), crashed) && (forall loaded :: !Loads(sum, crashed, loaded))
  {
    var batch := BatchFor(sum, chain, mutations);
    UnknownLink(sum, d, chain, sure, mutations, staging);
    var full := chain + [batch];
    assert full[|chain| - 1] == chain[|chain| - 1];
    crashed := LosesSecondLast(sum, Final(d, Publish(d, batch, Some(staging), UNSYNCED).states), full, sure,
      |chain| - 1);
  }

  lemma LosesSecondLast(sum: Checksum, d: Directory<Content>, full: seq<StoredBatch>, sure: nat, i: nat)
    returns (crashed: Directory<Content>)
    requires Linked(sum, full) && Shows(d, full, sure) && i + 2 == |full| && None in Candidates(d, FileName(full[i]))
    ensures CrashImage(d, crashed) && forall loaded :: !Loads(sum, crashed, loaded)
  {
    crashed := LosesBatch(d, full, sure, i);
    if FileName(full[i]) == FileName(full[i + 1]) {
      SameNameSamePlace(sum, full, i, i + 1);
    }
    assert FileName(full[i + 1]) in Visible(d);
    GapDoesNotLoad(sum, crashed, full, sure, i, i + 1);
  }
}
