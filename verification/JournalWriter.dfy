/** The durable journal writer: one immutable batch file per append. */
module JournalWriter {
  import opened Framing
  import opened Names
  import opened Durability
  import opened Journal
  import opened JournalStore

  const STAGING_ATTEMPTS: nat := 128

  /** Which file-system calls of one publication succeed. */
  datatype PublishCalls = PublishCalls(
    create: bool, write: bool, cleanup: bool, link: bool, directorySync: bool, unlink: bool, finalSync: bool)

  // ---------- what each disk step keeps ----------

  /** What a staging name may hold: a regular file or nothing. */
  predicate StagingItem(item: Option<BatchFile>) {
    item.Some? ==> item.value.kind == Regular
  }

  lemma RestagedStores(d: Directory<Content>, s: Directory<Content>, chain: seq<StoredBatch>, staging: string)
    requires Stores(Visible(d), chain) && IsTempName(staging) && Restaged(d, s, staging, StagingItem)
    ensures Stores(Visible(s), chain)
  {
    var before, after := Visible(d), Visible(s);
    forall n | n != staging ensures (n in before <==> n in after) && (n in after ==> after[n] == before[n]) {
      assert Now(s, n) == Now(d, n);
    }
    assert staging in after ==> after[staging].kind == Regular by {
      if Now(s, staging) == Now(d, staging) && staging in after {
        assert staging in before;
      }
    }
    forall i | 0 <= i < |chain|
      ensures FileName(chain[i]) in after && after[FileName(chain[i])].data == Some(chain[i])
    {
      BatchIsNoTemp(chain[i]);
    }
  }

  lemma RestagedBacked(d: Directory<Content>, s: Directory<Content>, chain: seq<StoredBatch>, sure: nat,
                       staging: string)
    requires Backed(d, chain, sure) && IsTempName(staging) && Restaged(d, s, staging, StagingItem)
    ensures Backed(s, chain, sure)
  {
    forall i | 0 <= i < |chain| ensures FileName(chain[i]) != staging {
      BatchIsNoTemp(chain[i]);
    }
    forall name ensures Now(s, name) in Candidates(s, name) {
      assert Now(d, name) in Candidates(d, name);
    }
    forall i | 0 <= i < sure ensures Settled(s, FileName(chain[i]), BatchItem(chain[i])) {
      assert Settled(d, FileName(chain[i]), BatchItem(chain[i]));
    }
  }

  lemma LinkStores(d: Directory<Content>, chain: seq<StoredBatch>, batch: StoredBatch)
    requires Stores(Visible(d), chain) && !NamesOneOf(chain, FileName(batch))
    ensures Stores(Visible(Put(d, FileName(batch), Some(BatchItem(batch)))), chain + [batch])
  {
    var longer, after := chain + [batch], Visible(Put(d, FileName(batch), Some(BatchItem(batch))));
    forall i | 0 <= i < |longer|
      ensures FileName(longer[i]) in after && after[FileName(longer[i])].data == Some(longer[i])
    {
      if i < |chain| {
        assert FileName(chain[i]) in Visible(d) && NamesOneOf(chain, FileName(chain[i]));
      }
    }
    forall name | name in after
      ensures after[name].kind == Regular && (IsTempName(name) || NamesOneOf(longer, name))
    {
      if name == FileName(batch) {
        assert longer[|chain|] == batch;
      } else {
        assert name in Visible(d);
        if !IsTempName(name) {
          var i :| 0 <= i < |chain| && name == FileName(chain[i]);
          assert longer[i] == chain[i];
        }
      }
    }
  }

  /** A chain that explains a directory still does when extended. */
  lemma LongerExplains(chain: seq<StoredBatch>, batch: StoredBatch, name: string, item: BatchFile)
    requires Explained(chain, name, item)
    ensures Explained(chain + [batch], name, item)
  {
    var longer := chain + [batch];
    if !IsTempName(name) {
      var i :| 0 <= i < |chain| && name == FileName(chain[i]) && item == BatchItem(chain[i]);
      assert longer[i] == chain[i];
    }
  }

  /** A name of no batch and no staging file cannot come back. */
  lemma NewNameIsAbsent(d: Directory<Content>, chain: seq<StoredBatch>, sure: nat, batch: StoredBatch)
    requires Backed(d, chain, sure) && !NamesOneOf(chain, FileName(batch))
    ensures Candidates(d, FileName(batch)) == {None}
  {
    BatchIsNoTemp(batch);
    assert forall v :: v in Candidates(d, FileName(batch)) && v.Some? ==> Explained(chain, FileName(batch), v.value);
    assert Now(d, FileName(batch)) in Candidates(d, FileName(batch));
  }

  lemma BackedLonger(d: Directory<Content>, chain: seq<StoredBatch>, sure: nat, batch: StoredBatch)
    requires Backed(d, chain, sure) && !NamesOneOf(chain, FileName(batch))
    ensures Backed(d, chain + [batch], sure)
  {
    NewNameIsAbsent(d, chain, sure, batch);
    forall name, v | v in Candidates(d, name) && v.Some? ensures Explained(chain + [batch], name, v.value) {
      LongerExplains(chain, batch, name, v.value);
    }
  }

  lemma LinkBacked(d: Directory<Content>, chain: seq<StoredBatch>, sure: nat, batch: StoredBatch)
    requires Backed(d, chain, sure) && !NamesOneOf(chain, FileName(batch))
    ensures Backed(Put(d, FileName(batch), Some(BatchItem(batch))), chain + [batch], sure)
  {
    var longer, linked := chain + [batch], Put(d, FileName(batch), Some(BatchItem(batch)));
    BackedLonger(d, chain, sure, batch);
    PutCoherent(d, FileName(batch), Some(BatchItem(batch)));
    forall i | 0 <= i < |chain| ensures FileName(longer[i]) != FileName(batch) {
      assert NamesOneOf(chain, FileName(chain[i]));
    }
    forall i | 0 <= i < sure ensures Settled(linked, FileName(longer[i]), BatchItem(longer[i])) {
      assert Settled(d, FileName(chain[i]), BatchItem(chain[i]));
    }
    assert Explained(longer, FileName(batch), BatchItem(batch)) by {
      assert longer[|chain|] == batch;
    }
  }

  /** Syncing the directory makes everything visible sure. */
  lemma SyncBacked(d: Directory<Content>, chain: seq<StoredBatch>, sure: nat)
    requires Backed(d, chain, sure)
    ensures Visible(SyncDirectory(d)) == Visible(d)
    ensures Backed(SyncDirectory(d), chain, sure)
    ensures Stores(Visible(d), chain) ==> DurablyStores(SyncDirectory(d), chain)
  {
    var s := SyncDirectory(d);
    forall name, v | v in Candidates(s, name) && v.Some? ensures Explained(chain, name, v.value) {
      assert Now(d, name) in Candidates(d, name);
    }
    forall i | 0 <= i < sure ensures Settled(s, FileName(chain[i]), BatchItem(chain[i])) {
      assert Settled(d, FileName(chain[i]), BatchItem(chain[i]));
    }
    if Stores(Visible(d), chain) {
      forall i | 0 <= i < |chain| ensures Settled(s, FileName(chain[i]), BatchItem(chain[i])) {
        VisibleIsItsBatch(d, chain, sure, i);
      }
    }
  }

  lemma VisibleIsItsBatch(d: Directory<Content>, chain: seq<StoredBatch>, sure: nat, i: nat)
    requires Backed(d, chain, sure) && Stores(Visible(d), chain) && i < |chain|
    ensures Now(d, FileName(chain[i])) == Some(BatchItem(chain[i]))
  {
    var name := FileName(chain[i]);
    BatchIsNoTemp(chain[i]);
    VisibleIsExplained(d, chain, sure);
    assert Explained(chain, name, Visible(d)[name]) && Visible(d)[name].data == Some(chain[i]);
  }

  // ---------- one publication as the states the disk passes through ----------

  datatype Publication = Publication(result: Result<(), JournalError>, states: seq<Directory<Content>>)

  /** A staging name that could be created, or none after all attempts. */
  predicate Fresh(d: Directory<Content>, staging: Option<string>) {
    staging.Some? ==> IsTempName(staging.value) && Now(d, staging.value).None?
  }

  /** Every staging name that an append tries is in use. */
  predicate Exhausted(d: Directory<Content>, batch: StoredBatch, pid: string) {
    forall attempt :: 0 <= attempt < STAGING_ATTEMPTS ==> Now(d, StagingName(batch, pid, Decimal(attempt))).Some?
  }

  /** No staging name is found for a new batch exactly when all are in use. */
  predicate Allocated(d: Directory<Content>, batch: StoredBatch, pid: string, staging: Option<string>) {
    Now(d, FileName(batch)).None? ==> (staging.None? <==> Exhausted(d, batch, pid))
  }

  /** The states after creating, writing and syncing the staging file. */
  function StagingStates(d: Directory<Content>, batch: StoredBatch, staging: string, calls: PublishCalls)
    : (states: seq<Directory<Content>>)
    ensures |states| >= 1
  {
    var created := Put(d, staging, Some(Item(Regular, None, false)));
    if !calls.write then
      if calls.cleanup then [created, Put(created, staging, None)] else [created]
    else
      var written := Put(created, staging, Some(Item(Regular, Some(batch), false)));
      var synced := Put(written, staging, Some(Item(Regular, Some(batch), true)));
      if !calls.link && calls.cleanup then [created, written, synced, Put(synced, staging, None)]
      else [created, written, synced]
  }

  /** The states from the link to the end. */
  function LinkStates(d: Directory<Content>, batch: StoredBatch, staging: string, calls: PublishCalls)
    : (states: seq<Directory<Content>>)
    ensures |states| >= 1
  {
    var linked := Put(d, FileName(batch), Now(d, staging));
    if !calls.directorySync then [linked]
    else
      var synced := SyncDirectory(linked);
      if !calls.unlink then [linked, synced]
      else
        var unlinked := Put(synced, staging, None);
        if calls.finalSync then [linked, synced, unlinked, SyncDirectory(unlinked)] else [linked, synced, unlinked]
  }

  function Publish(d: Directory<Content>, batch: StoredBatch, staging: Option<string>, calls: PublishCalls)
    : Publication
  {
    if Now(d, FileName(batch)).Some? then Publication(Err(Corrupt), [])
    else if staging.None? || !calls.create then Publication(Err(Io), [])
    else
      var staged := StagingStates(d, batch, staging.value, calls);
      RunOf(staged, LinkStates(staged[|staged| - 1], batch, staging.value, calls), calls)
  }

  /** Staging, and if it succeeds linking. */
  function RunOf(staged: seq<Directory<Content>>, linked: seq<Directory<Content>>, calls: PublishCalls): Publication {
    if !calls.write || !calls.link then Publication(Err(Io), staged)
    else Publication(if calls.directorySync then Ok(()) else Err(Poisoned), staged + linked)
  }

  lemma StagingStatesRestage(d: Directory<Content>, batch: StoredBatch, staging: string, calls: PublishCalls)
    ensures forall s :: s in StagingStates(d, batch, staging, calls) ==> Restaged(d, s, staging, StagingItem)
  {
    var created := Put(d, staging, Some(Item(Regular, None, false)));
    var written := Put(created, staging, Some(Item(Regular, Some(batch), false)));
    var synced := Put(written, staging, Some(Item(Regular, Some(batch), true)));
    PutRestages(d, d, staging, StagingItem, Some(Item(Regular, None, false)));
    PutRestages(d, created, staging, StagingItem, None);
    PutRestages(d, created, staging, StagingItem, Some(Item(Regular, Some(batch), false)));
    PutRestages(d, written, staging, StagingItem, Some(Item(Regular, Some(batch), true)));
    PutRestages(d, synced, staging, StagingItem, None);
  }

  /** When writing succeeds the staging file holds the whole batch, synced. */
  lemma StagedIsWhole(d: Directory<Content>, batch: StoredBatch, staging: string, calls: PublishCalls)
    requires calls.write && calls.link
    ensures var states := StagingStates(d, batch, staging, calls);
      Now(states[|states| - 1], staging) == Some(BatchItem(batch))
  {
  }

  lemma LinkStatesStore(d: Directory<Content>, chain: seq<StoredBatch>, batch: StoredBatch,
                        staging: string, calls: PublishCalls)
    requires IsTempName(staging) && !NamesOneOf(chain, FileName(batch)) && Stores(Visible(d), chain)
    requires Now(d, staging) == Some(BatchItem(batch))
    ensures Stores(Visible(Final(d, LinkStates(d, batch, staging, calls))), chain + [batch])
  {
    var linked := Put(d, FileName(batch), Some(BatchItem(batch)));
    LinkStores(d, chain, batch);
    var synced := SyncDirectory(linked);
    assert Visible(synced) == Visible(linked);
    PutRestages(synced, synced, staging, StagingItem, None);
    RestagedStores(synced, Put(synced, staging, None), chain + [batch], staging);
    assert Visible(SyncDirectory(Put(synced, staging, None))) == Visible(Put(synced, staging, None));
  }

  lemma RunIsVisible(d: Directory<Content>, chain: seq<StoredBatch>, longer: seq<StoredBatch>,
                     staged: seq<Directory<Content>>, linked: seq<Directory<Content>>, calls: PublishCalls)
    requires staged != [] && linked != []
    requires Stores(Visible(Final(d, staged)), chain)
    requires calls.write && calls.link ==> Stores(Visible(Final(d, linked)), longer)
    ensures var p := RunOf(staged, linked, calls);
      Stores(Visible(Final(d, p.states)), if p.result.Ok? || p.result == Err(Poisoned) then longer else chain)
  {
    assert Final(d, staged + linked) == Final(d, linked);
  }

  lemma StagedVisible(d: Directory<Content>, chain: seq<StoredBatch>, batch: StoredBatch, staging: string,
                      calls: PublishCalls,
                      staged: seq<Directory<Content>>, middle: Directory<Content>)
    requires IsTempName(staging) && Stores(Visible(d), chain) && !NamesOneOf(chain, FileName(batch))
    requires staged == StagingStates(d, batch, staging, calls) && middle == staged[|staged| - 1]
    ensures Stores(Visible(middle), chain)
    ensures calls.write && calls.link ==>
      Stores(Visible(Final(middle, LinkStates(middle, batch, staging, calls))), chain + [batch])
  {
    StagingStatesRestage(d, batch, staging, calls);
    assert middle in staged;
    RestagedStores(d, middle, chain, staging);
    if calls.write && calls.link {
      StagedIsWhole(d, batch, staging, calls);
      LinkStatesStore(middle, chain, batch, staging, calls);
    }
  }

  /** What is visible after a publication: the old history after a refusal, the
      old history and the whole batch after success or an unknown outcome. */
  lemma PublishVisible(d: Directory<Content>, chain: seq<StoredBatch>, batch: StoredBatch,
                       staging: Option<string>, calls: PublishCalls)
    requires Fresh(d, staging) && Stores(Visible(d), chain) && !NamesOneOf(chain, FileName(batch))
    ensures var p := Publish(d, batch, staging, calls);
      Stores(Visible(Final(d, p.states)),
             if p.result.Ok? || p.result == Err(Poisoned) then chain + [batch] else chain)
  {
    if Now(d, FileName(batch)).None? && staging.Some? && calls.create {
      var staged := StagingStates(d, batch, staging.value, calls);
      StagedRunVisible(d, chain, batch, staging.value, calls, staged,
                       LinkStates(staged[|staged| - 1], batch, staging.value, calls));
    }
  }

  lemma StagedRunVisible(d: Directory<Content>, chain: seq<StoredBatch>, batch: StoredBatch, staging: string,
                         calls: PublishCalls, staged: seq<Directory<Content>>, linked: seq<Directory<Content>>)
    requires IsTempName(staging) && Stores(Visible(d), chain) && !NamesOneOf(chain, FileName(batch))
    requires staged == StagingStates(d, batch, staging, calls)
    requires linked == LinkStates(staged[|staged| - 1], batch, staging, calls)
    ensures var p := RunOf(staged, linked, calls);
      Stores(Visible(Final(d, p.states)),
             if p.result.Ok? || p.result == Err(Poisoned) then chain + [batch] else chain)
  {
    StagedVisible(d, chain, batch, staging, calls, staged, staged[|staged| - 1]);
    RunIsVisible(d, chain, chain + [batch], staged, linked, calls);
  }

  ghost predicate AllBacked(states: seq<Directory<Content>>, chain: seq<StoredBatch>, sure: nat) {
    forall s :: s in states ==> Backed(s, chain, sure)
  }

  /** Where a publication may end: which chain is visible, and how much of it is sure. */
  ghost predicate Shows(d: Directory<Content>, chain: seq<StoredBatch>, sure: nat) {
    Backed(d, chain, sure) && Stores(Visible(d), chain)
  }

  lemma StagingStatesShow(d: Directory<Content>, chain: seq<StoredBatch>, sure: nat, batch: StoredBatch,
                          staging: string, calls: PublishCalls)
    requires IsTempName(staging) && Shows(d, chain, sure)
    ensures forall s :: s in StagingStates(d, batch, staging, calls) ==> Shows(s, chain, sure)
  {
    StagingStatesRestage(d, batch, staging, calls);
    forall s | s in StagingStates(d, batch, staging, calls) ensures Shows(s, chain, sure) {
      RestagedBacked(d, s, chain, sure, staging);
      RestagedStores(d, s, chain, staging);
    }
  }

  /** From the link on the whole batch is visible; from the directory sync on all is sure. */
  lemma LinkStatesShow(d: Directory<Content>, chain: seq<StoredBatch>, sure: nat, batch: StoredBatch,
                       staging: string, calls: PublishCalls)
    requires IsTempName(staging) && !NamesOneOf(chain, FileName(batch)) && Shows(d, chain, sure)
    requires Now(d, staging) == Some(BatchItem(batch))
    ensures var states := LinkStates(d, batch, staging, calls);
      && Shows(states[0], chain + [batch], sure)
      && (forall i :: 1 <= i < |states| ==> Shows(states[i], chain + [batch], |chain| + 1))
  {
    var longer := chain + [batch];
    var linked := Put(d, FileName(batch), Some(BatchItem(batch)));
    LinkBacked(d, chain, sure, batch);
    LinkStores(d, chain, batch);
    var synced := SyncDirectory(linked);
    SyncBacked(linked, longer, sure);
    var unlinked := Put(synced, staging, None);
    PutRestages(synced, synced, staging, StagingItem, None);
    RestagedBacked(synced, unlinked, longer, |longer|, staging);
    RestagedStores(synced, unlinked, longer, staging);
    SyncBacked(unlinked, longer, |longer|);
  }

  /** The end of a publication shows the old chain after a refusal, the longer one otherwise: all
      of it sure after success, no more of it than before after an unknown outcome. */
  ghost predicate EndsAs(end: Directory<Content>, chain: seq<StoredBatch>, sure: nat, longer: seq<StoredBatch>,
                         result: Result<(), JournalError>)
  {
    Shows(end, if result.Ok? || result == Err(Poisoned) then longer else chain, if result.Ok? then |longer| else sure)
  }

  /** Whatever calls fail, every state of a publication is backed by the old chain and the batch. */
  ghost predicate Published(d: Directory<Content>, chain: seq<StoredBatch>, sure: nat, batch: StoredBatch,
                            p: Publication) {
    && AllBacked(p.states, chain + [batch], sure)
    && EndsAs(Final(d, p.states), chain, sure, chain + [batch], p.result)
  }

  lemma RunIsPublished(d: Directory<Content>, chain: seq<StoredBatch>, sure: nat, batch: StoredBatch,
                       staged: seq<Directory<Content>>, linked: seq<Directory<Content>>, calls: PublishCalls)
    requires staged != [] && linked != [] && !NamesOneOf(chain, FileName(batch)) && sure <= |chain|
    requires forall s :: s in staged ==> Shows(s, chain, sure)
    requires calls.write && calls.link ==> Shows(linked[0], chain + [batch], sure)
    requires calls.write && calls.link ==>
      forall i :: 1 <= i < |linked| ==> Shows(linked[i], chain + [batch], |chain| + 1)
    requires calls.directorySync <==> |linked| > 1
    ensures Published(d, chain, sure, batch, RunOf(staged, linked, calls))
  {
    var p := RunOf(staged, linked, calls);
    forall s | s in p.states ensures Backed(s, chain + [batch], sure) {
      if s in staged {
        BackedLonger(s, chain, sure, batch);
      } else {
        var i :| 0 <= i < |linked| && linked[i] == s;
        if i > 0 {
          LessSure(s, chain + [batch], |chain| + 1, sure);
        }
      }
    }
    assert staged[|staged| - 1] in staged;
    assert Final(d, staged + linked) == linked[|linked| - 1];
  }

  lemma LessSure(d: Directory<Content>, chain: seq<StoredBatch>, more: nat, sure: nat)
    requires Backed(d, chain, more) && sure <= more
    ensures Backed(d, chain, sure)
  {
    forall i | sure <= i < more ensures Now(d, FileName(chain[i])).Some? {
      assert Settled(d, FileName(chain[i]), BatchItem(chain[i]));
    }
  }

  lemma PublishIsPublished(sum: Checksum, d: Directory<Content>, chain: seq<StoredBatch>, sure: nat, batch: StoredBatch,
                           staging: Option<string>, calls: PublishCalls)
    requires Linked(sum, chain) && batch.start == NextSequence(chain) && Shows(d, chain, sure) && Fresh(d, staging)
    ensures Published(d, chain, sure, batch, Publish(d, batch, staging, calls))
  {
    NextNameIsNew(sum, chain, batch);
    BackedLonger(d, chain, sure, batch);
    if Now(d, FileName(batch)).None? && staging.Some? && calls.create {
      var staged := StagingStates(d, batch, staging.value, calls);
      var middle := staged[|staged| - 1];
      StagingStatesShow(d, chain, sure, batch, staging.value, calls);
      assert middle in staged;
      if calls.write && calls.link {
        StagedIsWhole(d, batch, staging.value, calls);
        LinkStatesShow(middle, chain, sure, batch, staging.value, calls);
      }
      RunIsPublished(d, chain, sure, batch, staged, LinkStates(middle, batch, staging.value, calls), calls);
    }
  }

  // ---------- the writer ----------

  /** The open journal of a process: the batches it knows, and whether it still appends. */
  datatype Writer = Writer(chain: seq<StoredBatch>, healthy: bool)

  datatype World = World(dir: Directory<Content>, writer: Option<Writer>)

  /** Does this append reach the disk? */
  predicate Publishes(w: World, mutations: seq<JournalMutation>) {
    w.writer.Some? && w.writer.value.healthy && Appendable(w.writer.value.chain, mutations)
  }

  function Appended(sum: Checksum, w: World, mutations: seq<JournalMutation>): StoredBatch
    requires Publishes(w, mutations)
  {
    BatchFor(sum, w.writer.value.chain, mutations)
  }

  function Publishing(sum: Checksum, w: World, mutations: seq<JournalMutation>, staging: Option<string>,
                      calls: PublishCalls): Publication
    requires Publishes(w, mutations)
  {
    Publish(w.dir, Appended(sum, w, mutations), staging, calls)
  }

  /** Memory follows the disk only when the publication succeeds. */
  function Outcome(d: Directory<Content>, chain: seq<StoredBatch>, batch: StoredBatch, p: Publication): World {
    World(Final(d, p.states), Some(Writer(if p.result.Ok? then chain + [batch] else chain, p.result.Ok?)))
  }

  /** What an append call leaves. */
  function AfterAppend(sum: Checksum, w: World, mutations: seq<JournalMutation>, staging: Option<string>,
                       calls: PublishCalls): World
    requires w.writer.Some?
  {
    if !w.writer.value.healthy || mutations == [] then w
    else if !Publishes(w, mutations) then World(w.dir, Some(Writer(w.writer.value.chain, false)))
    else
      Outcome(w.dir, w.writer.value.chain, Appended(sum, w, mutations), Publishing(sum, w, mutations, staging, calls))
  }

  /** In a journal that stores its chain, the next batch has no file yet. */
  lemma NextNameIsFree(sum: Checksum, d: Directory<Content>, chain: seq<StoredBatch>, batch: StoredBatch)
    requires Linked(sum, chain) && Stores(Visible(d), chain) && batch.start == NextSequence(chain)
    ensures Now(d, FileName(batch)).None? && !NamesOneOf(chain, FileName(batch))
  {
    NextNameIsNew(sum, chain, batch);
    assert FileName(batch) !in Visible(d);
  }

  /** When a batch can be appended to a stored chain, and what publishing it answers, for every
      failing call. */
  lemma AppendAnswersExactly(sum: Checksum, d: Directory<Content>, chain: seq<StoredBatch>,
                             mutations: seq<JournalMutation>, staging: Option<string>, calls: PublishCalls)
    requires Linked(sum, chain) && Stores(Visible(d), chain)
    ensures Appendable(chain, mutations) <==>
      && mutations != [] && |ChainOps(chain)| + |mutations| < TWO_TO_THE_64
      && forall i :: 0 <= i < |mutations| ==> |mutations[i].path| > 0 && 0 !in mutations[i].path
    ensures Appendable(chain, mutations) ==>
      var r := Publish(d, BatchFor(sum, chain, mutations), staging, calls).result;
      var linked := staging.Some? && calls.create && calls.write && calls.link;
      && (r.Ok? <==> linked && calls.directorySync) && (r == Err(Poisoned) <==> linked && !calls.directorySync)
      && (r == Err(Io) <==> !linked)
  {
    NextIsLength(sum, chain);
    if Appendable(chain, mutations) {
      NextNameIsFree(sum, d, chain, BatchFor(sum, chain, mutations));
    }
  }

  predicate AllAdmitted(mutations: seq<JournalMutation>) {
    forall i :: 0 <= i < |mutations| ==> PathAdmitted(mutations[i].path)
  }

  lemma NextIsLength(sum: Checksum, chain: seq<StoredBatch>)
    requires Linked(sum, chain)
    ensures NextSequence(chain) == |ChainOps(chain)| + 1
  {
    ChainOpsLength(sum, chain);
  }

  class DurableJournal {
    const sum: Checksum
    const disk: Disk<Content>
    var ops: seq<JournalOp>
    var head: Option<Digest>
    var healthy: bool
    /** The batches behind `ops`. */
    ghost var chain: seq<StoredBatch>

    ghost predicate Recovered()
      reads this
    {
      Linked(sum, chain) && ops == ChainOps(chain) && head == Head(chain)
    }

    ghost predicate Valid()
      reads this, disk
    {
      Recovered() && (healthy ==> Stores(Visible(disk.dir), chain))
    }

    ghost function State(): World
      reads this, disk
    {
      World(disk.dir, Some(Writer(chain, healthy)))
    }

    /** Adopt a directory that loaded as `loaded`. */
    constructor (sum: Checksum, disk: Disk<Content>, ops: seq<JournalOp>, head: Option<Digest>,
                 ghost loaded: seq<StoredBatch>)
      requires Chained(sum, loaded) && Stores(Visible(disk.dir), loaded)
      requires ops == ChainOps(loaded) && head == Head(loaded)
      ensures Valid() && healthy && chain == loaded && this.sum == sum && this.disk == disk
    {
      this.sum := sum;
      this.disk := disk;
      this.ops := ops;
      this.head := head;
      healthy := true;
      chain := loaded;
    }

    /** Number the mutations and check their paths. */
    method NumberOps(start: nat, mutations: seq<JournalMutation>) returns (r: Result<seq<JournalOp>, JournalError>)
      requires mutations != []
      ensures r.Ok? <==> (start + |mutations| <= TWO_TO_THE_64 && AllAdmitted(mutations))
      ensures r.Ok? ==> r.value == OpsFor(start, mutations)
    {
      var numbered: seq<JournalOp> := [];
      for n := 0 to |mutations|
        invariant start + n <= TWO_TO_THE_64 || n == 0
        invariant AllAdmitted(mutations[..n])
        invariant |numbered| == n
        invariant forall i :: 0 <= i < n ==> numbered[i] == OpFor(start + i, mutations[i])
      {
        if !PathAdmitted(mutations[n].path) || start + n >= TWO_TO_THE_64 {
          return Err(Corrupt);
        }
        numbered := numbered + [OpFor(start + n, mutations[n])];
      }
      r := Ok(numbered);
    }

    /** The batch that follows the current head, unless a path or a sequence number is refused. */
    method MakeBatch(mutations: seq<JournalMutation>) returns (r: Result<StoredBatch, JournalError>)
      requires Recovered() && mutations != []
      ensures r.Ok? <==> Appendable(chain, mutations)
      ensures r.Ok? ==> r.value == BatchFor(sum, chain, mutations)
    {
      var start := |ops| + 1;
      NextIsLength(sum, chain);
      var numbered := NumberOps(start, mutations);
      if numbered.Err? {
        return Err(Corrupt);
      }
      r := Ok(NewBatch(sum, start, start + |mutations| - 1, head, numbered.value));
    }

    method AllocateStaging(batch: StoredBatch, pid: string) returns (staging: Option<string>)
      requires pid != "" && AllDigits(pid)
      ensures Fresh(disk.dir, staging) && (staging.None? <==> Exhausted(disk.dir, batch, pid))
    {
      for attempt := 0 to STAGING_ATTEMPTS
        invariant forall a :: 0 <= a < attempt ==> Now(disk.dir, StagingName(batch, pid, Decimal(a))).Some?
      {
        var name := StagingName(batch, pid, Decimal(attempt));
        if Now(disk.dir, name).None? {
          StagingNameIsTemp(batch, pid, Decimal(attempt));
          return Some(name);
        }
      }
      staging := None;
    }

    method WriteStaging(batch: StoredBatch, staging: string, calls: PublishCalls)
      modifies disk
      ensures var states := StagingStates(old(disk.dir), batch, staging, calls);
        disk.dir == states[|states| - 1] && disk.trail == old(disk.trail) + states
    {
      disk.Change(staging, Some(Item(Regular, None, false)));
      if calls.write {
        disk.Change(staging, Some(Item(Regular, Some(batch), false)));
        disk.Change(staging, Some(Item(Regular, Some(batch), true)));
      }
      if (!calls.write || !calls.link) && calls.cleanup {
        disk.Change(staging, None);
      }
    }

    method LinkBatch(batch: StoredBatch, staging: string, calls: PublishCalls)
      modifies disk
      ensures var states := LinkStates(old(disk.dir), batch, staging, calls);
        disk.dir == states[|states| - 1] && disk.trail == old(disk.trail) + states
    {
      disk.Change(FileName(batch), Now(disk.dir, staging));
      if calls.directorySync {
        disk.Sync();
        if calls.unlink {
          disk.Change(staging, None);
          if calls.finalSync {
            disk.Sync();
          }
        }
      }
    }

    /** The disk passes through exactly the states of the publication. */
    twostate predicate Passed(p: Publication)
      reads disk
    {
      disk.dir == Final(old(disk.dir), p.states) && disk.trail == old(disk.trail) + p.states
    }

    /** Write a batch to a staging file and link it under its final name. */
    method PublishBatch(batch: StoredBatch, pid: string, calls: PublishCalls)
      returns (r: Result<(), JournalError>, ghost staging: Option<string>)
      requires pid != "" && AllDigits(pid)
      modifies disk
      ensures Fresh(old(disk.dir), staging) && Allocated(old(disk.dir), batch, pid, staging)
      ensures r == Publish(old(disk.dir), batch, staging, calls).result
      ensures Passed(Publish(old(disk.dir), batch, staging, calls))
    {
      staging := None;
      if Now(disk.dir, FileName(batch)).Some? {
        return Err(Corrupt), staging;
      }
      var name := AllocateStaging(batch, pid);
      staging := name;
      if name.None? || !calls.create {
        return Err(Io), staging;
      }
      r := StageAndLink(batch, name.value, calls);
    }

    method StageAndLink(batch: StoredBatch, staging: string, calls: PublishCalls) returns (r: Result<(), JournalError>)
      modifies disk
      ensures var staged := StagingStates(old(disk.dir), batch, staging, calls);
        var p := RunOf(staged, LinkStates(staged[|staged| - 1], batch, staging, calls), calls);
        r == p.result && Passed(p)
    {
      WriteStaging(batch, staging, calls);
      if !calls.write || !calls.link {
        return Err(Io);
      }
      LinkBatch(batch, staging, calls);
      r := if calls.directorySync then Ok(()) else Err(Poisoned);
    }

    /** Append a batch.  Memory follows the disk only when publication succeeds. */
    method AppendBatch(mutations: seq<JournalMutation>, pid: string, calls: PublishCalls)
      returns (r: Result<(), JournalError>, ghost staging: Option<string>)
      requires Recovered() && mutations != [] && pid != "" && AllDigits(pid)
      modifies this`ops, this`head, this`chain, disk
      ensures Recovered() && Fresh(old(disk.dir), staging)
      ensures !Appendable(old(chain), mutations) ==>
        r == Err(Corrupt) && chain == old(chain) && Passed(Publication(r, []))
      ensures Appendable(old(chain), mutations) ==>
        var batch := BatchFor(sum, old(chain), mutations);
        && r == Publish(old(disk.dir), batch, staging, calls).result
        && Passed(Publish(old(disk.dir), batch, staging, calls))
        && Allocated(old(disk.dir), batch, pid, staging)
        && chain == (if r.Ok? then old(chain) + [batch] else old(chain))
    {
      staging := None;
      var made := MakeBatch(mutations);
      if made.Err? {
        return Err(Corrupt), staging;
      }
      var batch := made.value;
      r, staging := PublishBatch(batch, pid, calls);
      if r.Ok? {
        Remember(batch, mutations);
      }
    }

    /** Memory takes a published batch. */
    method Remember(batch: StoredBatch, ghost mutations: seq<JournalMutation>)
      requires Recovered() && Appendable(chain, mutations) && batch == BatchFor(sum, chain, mutations)
      modifies this`ops, this`head, this`chain
      ensures Recovered() && chain == old(chain) + [batch]
    {
      AppendExtends(sum, chain, mutations);
      ops := ops + batch.ops;
      head := Some(batch.checksum);
      chain := chain + [batch];
    }

    /** Append one admitted batch, or stop the writer.

        A refused append leaves the old history; a poisoned one leaves the old
        history and the whole batch visible; a stopped writer touches nothing. */
    method RecordBatch(mutations: seq<JournalMutation>, pid: string, calls: PublishCalls)
      returns (r: Result<(), JournalError>, ghost staging: Option<string>)
      requires Valid() && pid != "" && AllDigits(pid)
      modifies this, disk
      ensures Valid() && Fresh(old(disk.dir), staging)
      ensures State() == AfterAppend(sum, old(State()), mutations, staging, calls)
      ensures !Publishes(old(State()), mutations) ==>
        && disk.trail == old(disk.trail)
        && r == (if !old(healthy) then Err(Poisoned) else if mutations == [] then Ok(()) else Err(Corrupt))
      ensures Publishes(old(State()), mutations) ==>
        var p := Publishing(sum, old(State()), mutations, staging, calls);
        r == p.result && disk.trail == old(disk.trail) + p.states
      ensures Publishes(old(State()), mutations) ==>
        Allocated(old(disk.dir), BatchFor(sum, old(chain), mutations), pid, staging)
    {
      staging := None;
      if !healthy {
        return Err(Poisoned), staging;
      }
      if mutations == [] {
        return Ok(()), staging;
      }
      ghost var was, d := chain, disk.dir;
      r, staging := AppendBatch(mutations, pid, calls);
      if r.Err? {
        healthy := false;
      } else {
        NextNameIsNew(sum, was, BatchFor(sum, was, mutations));
        PublishVisible(d, was, BatchFor(sum, was, mutations), staging, calls);
      }
    }
  }
}
