/** The workspace writer over its real parts: content store, staged tree, staged journal and
  generation store.

  The writer carries, as ghost state, the run of the workspace so far.  Every call extends
  it, so the history stays invertible over every sequence of calls, crashes and reopenings.
*/
module Repository {
  import opened Framing
  import opened Names
  import opened Journal
  import D = Durability
  import JS = JournalStore
  import JW = JournalWriter
  import C = Cas
  import CS = CasStore
  import A = Apply
  import opened Paths
  import P = Proposal
  import FT = FileTree
  import G = Generations
  import GP = GenerationPublish
  import GR = GenerationRuns
  import GS = GenerationStore
  import opened History
  import opened Runs
  import opened WorkspaceRuns

  datatype PublishError = Refused | Failed | OutcomeUnknown

  /** What staging a batch meets: the calls of applying it, of rolling it back, and of the
      journal append. */
  datatype StageCalls = StageCalls(apply: nat -> A.StepFaults, repairs: nat -> Option<A.Fault>, record: JW.PublishCalls)

  /** What a publication meets: the calls of each put, of staging, the new checkpoint if one
      can be made, the calls of the switch, and whether the new generation can be read again. */
  datatype Calls = Calls(
    puts: nat -> C.PutCalls, stage: StageCalls, checkpoint: Option<Checkpoint>, fails: set<GS.Call>, rereads: bool)

  /** The calls of the switch work, and the new generation can be read again. */
  predicate Switches(calls: Calls) {
    GS.Completed(calls.fails) == GP.STEPS && calls.rereads
  }

  predicate IsPid(pid: string) {
    pid != "" && AllDigits(pid)
  }

  // ---------- the staged copy ----------

  /** The journal loads and takes the batch, and the calls of the append work. */
  ghost predicate Recordable(sum: Checksum, files: map<string, JS.BatchFile>, mutations: seq<JS.JournalMutation>,
                             pid: string, calls: JW.PublishCalls)
  {
    exists chain :: JS.Stores(files, chain) && Chained(sum, chain) && Takes(sum, files, chain, mutations, pid, calls)
  }

  ghost predicate Takes(sum: Checksum, files: map<string, JS.BatchFile>, chain: seq<StoredBatch>,
                        mutations: seq<JS.JournalMutation>, pid: string, calls: JW.PublishCalls)
  {
    mutations != [] ==>
      && JS.Appendable(chain, mutations) && calls.create && calls.write && calls.link && calls.directorySync
      && !JW.Exhausted(D.DirectoryOf(files), JS.BatchFor(sum, chain, mutations), pid)
  }

  /** Append the batch to a copy of the journal. */
  method RecordStaged(sum: Checksum, files: map<string, JS.BatchFile>, mutations: seq<JS.JournalMutation>, pid: string,
                      calls: JW.PublishCalls)
    returns (r: Option<map<string, JS.BatchFile>>, entries: seq<JournalOp>, ghost chain: seq<StoredBatch>)
    requires IsPid(pid)
    ensures r.Some? ==> JS.Stores(files, chain) && Chained(sum, chain)
    ensures r.Some? && mutations == [] ==> JS.Stores(r.value, chain) && entries == ChainOps(chain)
    ensures r.Some? && mutations != [] ==>
      && JS.Appendable(chain, mutations)
      && var longer := chain + [JS.BatchFor(sum, chain, mutations)];
        JS.Stores(r.value, longer) && entries == ChainOps(longer)
    ensures r.Some? <==> Recordable(sum, files, mutations, pid, calls)
  {
    r, entries, chain := None, [], [];
    var listing := D.Enumerate(files);
    var loaded := JS.LoadBatches(sum, listing, files);
    if loaded.Err? {
      return;
    }
    chain :| JS.Stores(files, chain) && Chained(sum, chain);
    var disk := new D.Disk<JS.Content>(D.DirectoryOf(files));
    var journal := new JW.DurableJournal(sum, disk, loaded.value.0, loaded.value.1, chain);
    var recorded, staging := journal.RecordBatch(mutations, pid, calls);
    RecordedExactly(sum, files, chain, mutations, pid, calls, staging);
    if recorded.Ok? {
      r, entries := Some(D.Visible(disk.dir)), journal.ops;
    }
  }

  lemma OneRecordable(sum: Checksum, files: map<string, JS.BatchFile>, chain: seq<StoredBatch>,
                      mutations: seq<JS.JournalMutation>, pid: string, calls: JW.PublishCalls)
    requires JS.Stores(files, chain) && Chained(sum, chain)
    ensures Recordable(sum, files, mutations, pid, calls) <==> Takes(sum, files, chain, mutations, pid, calls)
  {
    forall other | JS.Stores(files, other) && Chained(sum, other) ensures other == chain {
      JS.StoredChainIsUnique(sum, files, chain, other);
    }
  }

  /** An append to a copy of the journal succeeds exactly when the journal takes the batch. */
  lemma RecordedExactly(sum: Checksum, files: map<string, JS.BatchFile>, chain: seq<StoredBatch>,
                        mutations: seq<JS.JournalMutation>, pid: string, calls: JW.PublishCalls,
                        staging: Option<string>)
    requires JS.Stores(files, chain) && Chained(sum, chain)
    requires JS.Appendable(chain, mutations) ==>
      JW.Allocated(D.DirectoryOf(files), JS.BatchFor(sum, chain, mutations), pid, staging)
    ensures mutations == [] ==> Recordable(sum, files, mutations, pid, calls)
    ensures mutations != [] && !JS.Appendable(chain, mutations) ==> !Recordable(sum, files, mutations, pid, calls)
    ensures JS.Appendable(chain, mutations) ==>
      var p := JW.Publish(D.DirectoryOf(files), JS.BatchFor(sum, chain, mutations), staging, calls);
      p.result.Ok? <==> Recordable(sum, files, mutations, pid, calls)
  {
    OneRecordable(sum, files, chain, mutations, pid, calls);
    if JS.Appendable(chain, mutations) {
      JW.NextNameIsFree(sum, D.DirectoryOf(files), chain, JS.BatchFor(sum, chain, mutations));
    }
  }

  /** `entries` are the operations of the chain that `journal` stores. */
  ghost predicate JournalHolds(sum: Checksum, journal: map<string, JS.BatchFile>, entries: seq<JournalOp>) {
    exists chain :: JS.Stores(journal, chain) && Linked(sum, chain) && entries == ChainOps(chain)
  }

  lemma StagedHolds(sum: Checksum, chain: seq<StoredBatch>, mutations: seq<JS.JournalMutation>,
                    journal: map<string, JS.BatchFile>, entries: seq<JournalOp>)
    requires Chained(sum, chain) && (mutations != [] ==> JS.Appendable(chain, mutations))
    requires var whole := if mutations == [] then chain else chain + [JS.BatchFor(sum, chain, mutations)];
      JS.Stores(journal, whole) && entries == ChainOps(whole)
    ensures JournalHolds(sum, journal, entries)
  {
    if mutations != [] {
      JS.AppendExtends(sum, chain, mutations);
    }
  }

  /** The batch applies to the active tree, and its journal takes it. */
  ghost predicate Buildable(x: Setting, active: G.Generation, ops: seq<FT.Op>, mutations: seq<JS.JournalMutation>,
                            pid: string, calls: StageCalls) {
    && active.repo.Some? && active.journal.Some? && FT.ApplyAll(active.repo.value, ops).Some?
    && Recordable(x.sum, active.journal.value, mutations, pid, calls.record)
  }

  /** Apply the batch to a copy of the active tree and append it to a copy of the journal. */
  method BuildStage(x: Setting, active: G.Generation, ops: seq<FT.Op>, mutations: seq<JS.JournalMutation>, pid: string,
                    calls: StageCalls, ghost acked: set<Bytes>)
    returns (built: Option<G.Generation>, entries: seq<JournalOp>)
    requires IsPid(pid) && active.repo.Some? && active.journal.Some?
    requires Admitted(x.codec, A.FilesOf(active.repo.value), ops) && AllPut(A.FilesOf(active.repo.value), ops, acked)
    requires mutations == MutationsFor(x.address, x.codec, A.FilesOf(active.repo.value), ops)
    ensures built.Some? ==> Built(x, active, ops, built.value, acked) && built.value.manifest.None?
    ensures built.Some? ==> JournalHolds(x.sum, built.value.journal.value, entries)
    ensures A.AllWork(calls.apply) ==> (built.Some? <==> Buildable(x, active, ops, mutations, pid, calls))
  {
    var root := new A.StagedRoot(active.repo.value);
    var applied, undo, failures, at, met := root.ApplyBatch(ops, calls.apply, calls.repairs);
    built, entries := None, [];
    if applied.Err? {
      return;
    }
    var journal;
    ghost var chain;
    journal, entries, chain := RecordStaged(x.sum, active.journal.value, mutations, pid, calls.record);
    if journal.None? {
      return;
    }
    built := Some(G.Generation(None, Some(root.tree), journal));
    assert Journalled(x, A.FilesOf(active.repo.value), ops, chain, journal.value);
    StagedHolds(x.sum, chain, mutations, journal.value, entries);
  }

  // ---------- what puts need ----------

  /** A put by this process finds a free staging name, for every object. */
  ghost predicate Roomy(d: D.Directory<C.Object>, pid: string) {
    forall digest: Digest, sequence: nat :: !CS.Exhausted(d, digest, pid, sequence)
  }

  predicate AllFit(contents: seq<Bytes>) {
    forall b :: b in contents ==> |b| <= C.MAX_OBJECT_BYTES
  }

  /** Every content of the batch, before and after, fits an object. */
  predicate BatchFits(files: Files, ops: seq<FT.Op>) {
    forall i :: 0 <= i < |ops| ==> AllFit(BytesFor(files, ops[i]))
  }

  ghost predicate AllPutsWork(calls: nat -> C.PutCalls) {
    forall n :: C.PutWorks(calls(n))
  }

  /** A working put into a sound and roomy store succeeds and leaves it roomy. */
  lemma RoomyPut(address: C.Address, d: D.Directory<C.Object>, bytes: Bytes, pid: string, sequence: nat,
                 staging: Option<string>, calls: C.PutCalls)
    requires C.Sound(address, d) && C.Fresh(d, staging) && Roomy(d, pid) && IsPid(pid)
    requires |bytes| <= C.MAX_OBJECT_BYTES && C.PutWorks(calls)
    requires CS.Allocated(d, address(bytes), pid, sequence, staging)
    ensures var p := C.PutObject(address, d, bytes, staging, calls);
      p.result.Ok? && Roomy(D.Final(d, p.states), pid)
  {
    C.PutSucceedsExactly(address, d, bytes, staging, calls);
    RoomyStays(d, D.Final(d, C.PutObject(address, d, bytes, staging, calls).states), pid);
  }

  lemma RoomyStays(d: D.Directory<C.Object>, e: D.Directory<C.Object>, pid: string)
    requires Roomy(d, pid) && C.SameStaging(d, e) && IsPid(pid)
    ensures Roomy(e, pid)
  {
    forall digest: Digest, sequence: nat ensures !CS.Exhausted(e, digest, pid, sequence) {
      assert !CS.Exhausted(d, digest, pid, sequence);
      var attempt :| 0 <= attempt < CS.TEMP_ATTEMPTS && D.Now(d, CS.NumberedName(digest, pid, sequence, attempt)).None?;
      C.StagingNameIsStaging(digest, pid, Decimal(sequence + attempt));
      assert D.Now(e, CS.NumberedName(digest, pid, sequence, attempt)).None?;
    }
  }

  // ---------- the writer ----------

  class Writer {
    const x: Setting
    const cas: CS.ImmutableCas
    const store: GS.Store
    var healthy: bool
    /** Contents put with success, and all that were ever there. */
    ghost var acked: set<Bytes>
    ghost var stored: set<Bytes>
    /** The run so far, from a fresh clone. */
    ghost const root: G.Generation
    ghost var events: seq<Event>
    ghost var worlds: seq<World>

    ghost function Now(): World
      reads this, cas, cas.disk, store
    {
      World(C.Store(cas.disk.dir, !cas.poisoned), GR.Writer(store.v, Some(store.active), healthy), acked, stored)
    }

    /** The run ends in `now`. */
    ghost predicate Reached(now: World)
      reads this
    {
      Run(x, events, worlds) && Cloned(x, worlds[0], root) && worlds[|events|] == now
    }

    ghost predicate Valid()
      reads this, cas, cas.disk, store
    {
      cas.address == x.address && store.seals == x.seals && store.id == x.id && Reached(Now())
    }

    /** Open a workspace whose run so far ends in a world that opens: the content store opened,
        and the generation store opened as `store.active`. */
    constructor (x: Setting, cas: CS.ImmutableCas, store: GS.Store, ghost root: G.Generation, ghost before: World,
                 ghost events: seq<Event>, ghost worlds: seq<World>)
      requires cas.address == x.address && store.seals == x.seals && store.id == x.id && !cas.poisoned
      requires Run(x, events, worlds) && Cloned(x, worlds[0], root) && worlds[|events|] == before
      requires before.gen == GR.Writer(store.v, None, false) && G.Opens(x.seals, x.id, store.v, store.active)
      requires C.Next(x.address, before.cas, C.Opening(true), C.Store(cas.disk.dir, true))
      ensures Valid() && healthy && this.x == x && this.cas == cas && this.store == store && this.root == root
      ensures this.events == events + [Opening(true)]
    {
      this.x := x;
      this.cas := cas;
      this.store := store;
      this.root := root;
      healthy := true;
      acked := before.acked;
      stored := before.stored;
      ghost var now := World(C.Store(cas.disk.dir, true), GR.Writer(store.v, Some(store.active), true), before.acked,
                             before.stored);
      OpeningStep(x, before, now);
      RunExtends(Step(x), events, worlds, Opening(true), now);
      this.events := events + [Opening(true)];
      this.worlds := worlds + [now];
    }

    /** One more step of the run. */
    ghost method Extend(was: World, e: Event)
      requires Reached(was) && Next(x, was, e, Now())
      modifies this`events, this`worlds
      ensures Reached(Now()) && events == old(events) + [e]
    {
      RunExtends(Step(x), events, worlds, e, Now());
      events, worlds := events + [e], worlds + [Now()];
    }

    /** The generation the writer holds active. */
    function Active(): G.Generation
      requires D.Now(store.v.gens, GenerationName(store.active.generation)).Some?
      reads this, store
    {
      D.Now(store.v.gens, GenerationName(store.active.generation)).value.data
    }

    /** The content store takes puts, and this process finds staging names for them. */
    ghost predicate Ready(pid: string)
      reads cas, cas.disk
    {
      !cas.poisoned && Roomy(cas.disk.dir, pid)
    }

    /** Put one content: one step of the run, unless the content store is poisoned. */
    method PutOne(bytes: Bytes, pid: string, sequence: nat, calls: C.PutCalls) returns (digest: Option<Digest>)
      requires Valid() && IsPid(pid)
      modifies cas, cas.disk, this`acked, this`stored, this`events, this`worlds
      ensures Valid() && old(acked) <= acked && old(events) <= events
      ensures digest.Some? ==> digest.value == x.address(bytes) && bytes in acked
      ensures old(Ready(pid)) && |bytes| <= C.MAX_OBJECT_BYTES && C.PutWorks(calls) ==> digest.Some? && Ready(pid)
    {
      ghost var was, usable := Now(), !cas.poisoned;
      var r, staging := cas.PutBytes(bytes, pid, sequence, calls);
      if usable {
        ReadyPut(was, bytes, pid, sequence, staging, calls);
        LogPut(was, bytes, staging, calls, r.Ok?);
      }
      digest := if r.Ok? then Some(r.value) else None;
    }

    lemma ReadyPut(was: World, bytes: Bytes, pid: string, sequence: nat, staging: Option<string>, calls: C.PutCalls)
      requires Reached(was) && C.Fresh(was.cas.dir, staging) && IsPid(pid)
      requires |bytes| <= C.MAX_OBJECT_BYTES ==>
        CS.Allocated(was.cas.dir, x.address(bytes), pid, sequence, staging)
      ensures Roomy(was.cas.dir, pid) && |bytes| <= C.MAX_OBJECT_BYTES && C.PutWorks(calls) ==>
        var p := C.PutObject(x.address, was.cas.dir, bytes, staging, calls);
        p.result.Ok? && Roomy(D.Final(was.cas.dir, p.states), pid)
    {
      RunIsGood(x, root, events, worlds, |events|);
      if Roomy(was.cas.dir, pid) && |bytes| <= C.MAX_OBJECT_BYTES && C.PutWorks(calls) {
        RoomyPut(x.address, was.cas.dir, bytes, pid, sequence, staging, calls);
      }
    }

    ghost method LogPut(was: World, bytes: Bytes, staging: Option<string>, calls: C.PutCalls, ok: bool)
      requires Reached(was) && was.cas.usable && C.Fresh(was.cas.dir, staging)
      requires was.gen == Now().gen && was.acked == acked && was.stored == stored
      requires var p := C.PutObject(x.address, was.cas.dir, bytes, staging, calls);
        && ok == p.result.Ok?
        && Now().cas == C.Store(D.Final(was.cas.dir, p.states), p.result != Err(C.OutcomeUnknown))
      modifies this`acked, this`stored, this`events, this`worlds
      ensures Reached(Now()) && old(acked) <= acked && events == old(events) + [Putting(bytes, staging, calls)]
      ensures ok ==> bytes in acked
    {
      stored := stored + {bytes};
      acked := if ok then acked + {bytes} else acked;
      PuttingStep(x, was, Now(), bytes, staging, calls);
      Extend(was, Putting(bytes, staging, calls));
    }

    /** Put some contents in order, stopping at the first failure. */
    method PutEach(contents: seq<Bytes>, pid: string, sequence: nat, calls: nat -> C.PutCalls) returns (ok: bool)
      requires Valid() && IsPid(pid)
      modifies cas, cas.disk, this`acked, this`stored, this`events, this`worlds
      ensures Valid() && old(acked) <= acked && old(events) <= events
      ensures ok ==> forall b :: b in contents ==> b in acked
      ensures old(Ready(pid)) && AllFit(contents) && AllPutsWork(calls) ==> ok && Ready(pid)
      decreases |contents|
    {
      if contents == [] {
        return true;
      }
      assert contents[0] in contents;
      var digest := PutOne(contents[0], pid, sequence, calls(sequence));
      if digest.None? {
        return false;
      }
      ok := PutEach(contents[1..], pid, sequence + 1, calls);
    }

    /** Put the contents of every operation, before and after it, stopping at the first failure. */
    method PutBatch(files: Files, ops: seq<FT.Op>, pid: string, calls: nat -> C.PutCalls) returns (ok: bool)
      requires Valid() && IsPid(pid)
      modifies cas, cas.disk, this`acked, this`stored, this`events, this`worlds
      ensures Valid() && old(acked) <= acked && old(events) <= events
      ensures ok ==> AllPut(files, ops, acked)
      ensures old(Ready(pid)) && BatchFits(files, ops) && AllPutsWork(calls) ==> ok && Ready(pid)
    {
      ghost var smooth := Ready(pid) && BatchFits(files, ops) && AllPutsWork(calls);
      for n := 0 to |ops|
        invariant Valid() && old(acked) <= acked && old(events) <= events
        invariant AllPut(files, ops[..n], acked)
        invariant smooth ==> Ready(pid)
      {
        ghost var before := acked;
        ok := PutEach(BytesFor(files, ops[n]), pid, 2 * n, calls);
        if !ok {
          return;
        }
        PutMore(files, ops, n, before, acked);
      }
      assert ops[..|ops|] == ops;
      return true;
    }

    /** Put the contents of every operation and build the records of the batch. */
    method PrepareMutations(files: Files, ops: seq<FT.Op>, pid: string, calls: nat -> C.PutCalls)
      returns (mutations: Option<seq<JS.JournalMutation>>)
      requires Valid() && IsPid(pid) && Admitted(x.codec, files, ops)
      modifies cas, cas.disk, this`acked, this`stored, this`events, this`worlds
      ensures Valid() && old(acked) <= acked && old(events) <= events
      ensures mutations.Some? ==>
        AllPut(files, ops, acked) && mutations.value == MutationsFor(x.address, x.codec, files, ops)
      ensures old(Ready(pid)) && BatchFits(files, ops) && AllPutsWork(calls) ==> mutations.Some? && Ready(pid)
    {
      var ok := PutBatch(files, ops, pid, calls);
      return if ok then Some(MutationsFor(x.address, x.codec, files, ops)) else None;
    }

    /** Copy the active generation into a staged directory: one step of the run. */
    method StageCopy(pid: string, pointer: string) returns (stage: Option<GP.Stage>)
      requires Valid() && healthy && G.Opens(x.seals, x.id, store.v, store.active)
      requires pointer != G.ACTIVE_FILE && pointer != G.GENERATIONS_DIR
      modifies store, this`events, this`worlds
      ensures Valid() && store.active == old(store.active) && old(events) <= events
      ensures stage.Some? <==> GS.HasRoom(old(store.v).gens, pid)
      ensures stage.Some? ==> GP.Staged(store.v, stage.value) && GS.IsNext(old(store.v).gens, stage.value.generation)
      ensures D.Now(store.v.gens, GenerationName(store.active.generation))
           == old(D.Now(store.v.gens, GenerationName(store.active.generation)))
    {
      ghost var was := Now();
      var listing := D.Enumerate(G.Kinds(store.v.gens));
      var staged := store.StageGeneration(listing, pid, pointer);
      if staged.Err? {
        return None;
      }
      StageLeavesActive(was.gen.v.gens, staged.value.name, staged.value.content, store.active.generation);
      LogStaging(was, staged.value.name, staged.value.content);
      return Some(staged.value);
    }

    ghost method LogStaging(was: World, name: string, content: G.Generation)
      requires Reached(was) && GR.CanWrite(was.gen) && IsStageName(name)
      requires Now() == was.(gen := was.gen.(v := G.Volume(was.gen.v.work,
        D.Put(was.gen.v.gens, name, Some(D.Item(D.Folder, content, false))))))
      modifies this`events, this`worlds
      ensures Reached(Now()) && events == old(events) + [Staging(name, content)]
    {
      StagingStep(x, was, Now(), name, content);
      Extend(was, Staging(name, content));
    }

    /** Write what was built into the staged directory: one step of the run. */
    method StageBuilt(stage: GP.Stage, built: G.Generation)
      requires Valid() && healthy && GP.Staged(store.v, stage) && built.repo.Some? && built.journal.Some?
      modifies store, this`events, this`worlds
      ensures Valid() && store.active == old(store.active) && old(events) <= events
      ensures GP.Staged(store.v, stage.(content := built))
      ensures D.Now(store.v.gens, GenerationName(store.active.generation))
           == old(D.Now(store.v.gens, GenerationName(store.active.generation)))
    {
      ghost var was := Now();
      store.EditStage(stage, built);
      StageLeavesActive(was.gen.v.gens, stage.name, built, store.active.generation);
      LogStaging(was, stage.name, built);
    }

    /** Switch to the staged generation: one step of the run, unless no manifest can be made. */
    method SwitchTo(ops: seq<FT.Op>, stage: GP.Stage, checkpoint: Checkpoint, fails: set<GS.Call>, reopens: bool)
      returns (r: Result<(), PublishError>, ghost m: Option<G.Manifest>)
      requires Valid() && healthy && GP.Staged(store.v, stage) && Legit(x, Now(), ops, stage.content)
      modifies store, this`events, this`worlds, this`healthy
      ensures Valid() && old(events) <= events
      ensures healthy == (r != Err(OutcomeUnknown)) && r != Err(Refused)
      ensures r == Err(Failed) ==> store.active == old(store.active)
      ensures m == GP.ManifestFor(x.seals, x.id, old(store.active), stage, checkpoint)
      ensures r.Ok? <==> m.Some? && GS.Completed(fails) == GP.STEPS && reopens
      ensures r.Ok? ==>
        && m.Some? && store.active == m.value && m.value.generation == stage.generation
        && store.v == GP.After(x.seals, old(store.v), stage, m.value, GP.STEPS)
    {
      ghost var was := Now();
      r, m := PublishStaged(stage, checkpoint, fails, reopens);
      if m.Some? {
        LogSwitch(was, ops, stage, checkpoint, GS.Completed(fails), reopens, m.value);
      }
    }

    method PublishStaged(stage: GP.Stage, checkpoint: Checkpoint, fails: set<GS.Call>, reopens: bool)
      returns (r: Result<(), PublishError>, ghost m: Option<G.Manifest>)
      requires healthy
      modifies store, this`healthy
      ensures m == GP.ManifestFor(store.seals, store.id, old(store.active), stage, checkpoint)
      ensures m.None? ==> r == Err(Failed) && healthy && store.v == old(store.v) && store.active == old(store.active)
      ensures m.Some? ==>
        var done := GS.Completed(fails);
        && r == (if done < GP.SWITCHED then Err(Failed) else if done == GP.STEPS
          && reopens then Ok(()) else Err(OutcomeUnknown))
        && healthy == (r != Err(OutcomeUnknown)) && store.v == GP.After(store.seals, old(store.v), stage, m.value, done)
        && store.active == (if done == GP.STEPS then m.value else old(store.active))
    {
      m := GP.ManifestFor(store.seals, store.id, store.active, stage, checkpoint);
      var published := store.PublishWith(stage, checkpoint, fails);
      r := match published
        case Ok(_) => if reopens then Ok(()) else Err(OutcomeUnknown)
        case Err(error) => if error == GP.OutcomeUnknown then Err(OutcomeUnknown) else Err(Failed);
      healthy := r != Err(OutcomeUnknown);
    }

    ghost method LogSwitch(was: World, ops: seq<FT.Op>, stage: GP.Stage, checkpoint: Checkpoint, done: nat,
                           reopens: bool,
                           m: G.Manifest)
      requires Reached(was) && Legit(x, was, ops, stage.content)
      requires GR.Prepared(x.seals, x.id, was.gen, stage, checkpoint, done, m)
      requires Now() == was.(gen := GR.Writer(GP.After(x.seals, was.gen.v, stage, m, done),
        if done == GP.STEPS then Some(m) else was.gen.active, done < GP.SWITCHED || (done == GP.STEPS && reopens)))
      modifies this`events, this`worlds
      ensures Reached(Now()) && events == old(events) + [Publishing(ops, stage, checkpoint, done, reopens)]
    {
      GR.PublishingIsStep(x.seals, x.id, was.gen, stage, checkpoint, done, reopens, m, Now().gen);
      PublishingGen(x, was, Now(), ops, stage, checkpoint, done, reopens);
      PublishingStep(x, was, Now(), ops, stage, checkpoint, done, reopens);
      Extend(was, Publishing(ops, stage, checkpoint, done, reopens));
    }

    /** Are all objects of the journal readable? */
    method ObjectsRead(entries: seq<JournalOp>) returns (ok: bool)
      ensures ok <==> !cas.poisoned && Closed(StoreOf(cas.address, cas.disk.dir), entries)
    {
      if cas.poisoned {
        return false;
      }
      ok := ValidateObjects(StoreOf(cas.address, cas.disk.dir), entries);
    }

    /** Switch to a stage built from the active generation `from`. */
    method SwitchToBuilt(ops: seq<FT.Op>, stage: GP.Stage, calls: Calls, ghost from: G.Generation)
      returns (r: Result<(), PublishError>)
      requires Valid() && healthy && GP.Staged(store.v, stage) && calls.checkpoint.Some?
      requires Built(x, from, ops, stage.content, acked)
      requires var entry := D.Now(store.v.gens, GenerationName(store.active.generation));
        entry.Some? && entry.value.data == from
      modifies store, this`events, this`worlds, this`healthy
      ensures Valid() && old(events) <= events
      ensures healthy == (r != Err(OutcomeUnknown)) && r != Err(Refused)
      ensures r == Err(Failed) ==> store.active == old(store.active)
      ensures r.Ok? <==>
        GP.ManifestFor(x.seals, x.id, old(store.active), stage, calls.checkpoint.value).Some? && Switches(calls)
      ensures r.Ok? ==>
        var now := D.Now(store.v.gens, GenerationName(store.active.generation));
        now.Some? && Built(x, from, ops, now.value.data, acked)
    {
      ghost var m, was := None, store.v;
      r, m := SwitchTo(ops, stage, calls.checkpoint.value, calls.fails, calls.rereads);
      if r.Ok? {
        PublishedEntry(x.seals, was, stage, m.value);
        BuiltAnyway(x, from, ops, stage.content, Active(), acked);
      }
    }

    /** Validate a raw batch against the active files and publish it.  It is refused exactly when
        validation refuses it or the journal cannot carry one of its paths. */
    method ApplyChange(nfc: string -> string, fold: P.Fold, grant: seq<string>, patches: seq<P.Hunk>, pid: string,
                       pointer: string, calls: Calls)
      returns (r: Result<(), PublishError>)
      requires Valid() && IsPid(pid) && pointer != G.ACTIVE_FILE && pointer != G.GENERATIONS_DIR
      modifies this, cas, cas.disk, store
      ensures Valid() && old(events) <= events
      ensures !old(healthy) ==> r == Err(OutcomeUnknown) && Now() == old(Now())
      ensures r == Err(Refused) ==> Now() == old(Now())
      ensures old(healthy) ==>
        (r == Err(Refused) <==>
          || !old(Accepts(nfc, fold, grant, patches))
          || exists i :: 0 <= i < |patches| && !RoundTrips(x.codec, Segments(nfc(patches[i].path))))
      ensures r.Ok? ==>
        var was := old(D.Now(store.v.gens, GenerationName(store.active.generation)));
        var now := D.Now(store.v.gens, GenerationName(store.active.generation));
        && was.Some? && now.Some?
        && Built(x, was.value.data, BatchOps(P.Normalized(nfc, patches), patches), now.value.data, acked)
    {
      if !healthy {
        return Err(OutcomeUnknown);
      }
      var ops := ValidatePatches(nfc, fold, grant, patches);
      if ops.None? {
        return Err(Refused);
      }
      r := PublishPatches(ops.value, pid, pointer, calls);
    }

    /** The operations of a batch that validation accepts against the active files. */
    method ValidatePatches(nfc: string -> string, fold: P.Fold, grant: seq<string>, patches: seq<P.Hunk>)
      returns (ops: Option<seq<FT.Op>>)
      ensures ops.Some? <==> Accepts(nfc, fold, grant, patches)
      ensures ops.Some? ==>
        && ops.value == BatchOps(P.Normalized(nfc, patches), patches)
        && (Unfit(x.codec, ActiveFiles(), ops.value) <==>
              exists i :: 0 <= i < |patches| && !RoundTrips(x.codec, Segments(nfc(patches[i].path))))
    {
      var files := ActiveFiles();
      var normalized := P.ValidateBatch(nfc, fold, grant, patches, path => Segments(path) in files);
      if normalized.Err? {
        return None;
      }
      ValidatedBatch(nfc, fold, grant, patches, x.codec, files);
      return Some(BatchOps(normalized.value, patches));
    }

    /** Validation accepts the batch against the active files. */
    ghost predicate Accepts(nfc: string -> string, fold: P.Fold, grant: seq<string>, patches: seq<P.Hunk>)
      reads store
    {
      var files := ActiveFiles();
      P.BatchAdmitted(nfc, fold, grant, patches, path => Segments(path) in files)
    }

    /** Publish a batch.

        Whatever fails, the call extends the run of the workspace, so its history stays
        invertible; a refusal touches nothing, a failure leaves the active generation as it was,
        success makes the built generation active, and after an unknown outcome this writer
        publishes nothing more.  With working calls it succeeds exactly when the batch is admitted,
        applies, can be recorded, and a number and a manifest are left for it. */
    method PublishPatches(ops: seq<FT.Op>, pid: string, pointer: string, calls: Calls)
      returns (r: Result<(), PublishError>)
      requires Valid() && IsPid(pid) && pointer != G.ACTIVE_FILE && pointer != G.GENERATIONS_DIR
      modifies this, cas, cas.disk, store
      ensures Valid() && old(events) <= events
      ensures !old(healthy) ==> r == Err(OutcomeUnknown) && Now() == old(Now())
      ensures old(healthy) ==> healthy == (r != Err(OutcomeUnknown))
      ensures r == Err(Refused) ==> Now() == old(Now())
      ensures old(healthy) ==> (r == Err(Refused) <==> Unfit(x.codec, old(ActiveFiles()), ops))
      ensures old(healthy && AllCallsWork(ops, pid, calls)) ==> (r.Ok? <==> old(Publishable(ops, pid, calls)))
      ensures r == Err(Refused) || r == Err(Failed) ==> store.active == old(store.active)
      ensures r.Ok? ==>
        var was := old(D.Now(store.v.gens, GenerationName(store.active.generation)));
        var now := D.Now(store.v.gens, GenerationName(store.active.generation));
        was.Some? && now.Some? && Built(x, was.value.data, ops, now.value.data, acked)
    {
      if !healthy {
        return Err(OutcomeUnknown);
      }
      ActiveIsOpen();
      AdmittedExactly(x.codec, ActiveFiles(), ops);
      if !Admitted(x.codec, A.FilesOf(Active().repo.value), ops) {
        return Err(Refused);
      }
      r := PublishAdmitted(ops, pid, pointer, calls);
    }

    method PublishAdmitted(ops: seq<FT.Op>, pid: string, pointer: string, calls: Calls)
      returns (r: Result<(), PublishError>)
      requires Valid() && healthy && IsPid(pid) && pointer != G.ACTIVE_FILE && pointer != G.GENERATIONS_DIR
      requires D.Now(store.v.gens, GenerationName(store.active.generation)).Some?
      requires Active().repo.Some? && Active().journal.Some? && G.Opens(x.seals, x.id, store.v, store.active)
      requires Admitted(x.codec, A.FilesOf(Active().repo.value), ops)
      modifies this, cas, cas.disk, store
      ensures Valid() && old(events) <= events && healthy == (r != Err(OutcomeUnknown)) && r != Err(Refused)
      ensures r == Err(Failed) ==> store.active == old(store.active)
      ensures r.Ok? ==>
        var now := D.Now(store.v.gens, GenerationName(store.active.generation));
        now.Some? && Built(x, old(Active()), ops, now.value.data, acked)
      ensures old(Smooth(Active(), ops, pid, calls)) && Switches(calls) ==>
        (r.Ok? <==> old(Stageable(Active(), ops, pid, calls) && Nameable(x, store.v.gens, store.active, calls)))
    {
      ghost var gens := store.v.gens;
      var stage := BuildAndStage(ops, pid, pointer, calls);
      if stage.None? || calls.checkpoint.None? {
        return Err(Failed);
      }
      NameableExactly(x, gens, store.active, stage.value, calls);
      r := SwitchToBuilt(ops, stage.value, calls, old(Active()));
    }

    lemma ActiveIsOpen()
      requires Valid() && healthy
      ensures G.Opens(x.seals, x.id, store.v, store.active)
      ensures var entry := D.Now(store.v.gens, GenerationName(store.active.generation));
        entry.Some? && entry.value.data.repo.Some? && entry.value.data.journal.Some?
    {
      RunIsGood(x, root, events, worlds, |events|);
      ActiveOpens(x, Now());
    }

    /** `active` is what the writer holds active. */
    ghost predicate IsActive(active: G.Generation)
      reads store
    {
      var entry := D.Now(store.v.gens, GenerationName(store.active.generation));
      entry.Some? && entry.value.data == active
    }

    /** What was built from the active generation reads back from the content store. */
    lemma StagedIsReadable(active: G.Generation, ops: seq<FT.Op>, built: G.Generation, entries: seq<JournalOp>)
      requires Valid() && healthy && IsActive(active) && Built(x, active, ops, built, acked)
      requires JournalHolds(x.sum, built.journal.value, entries)
      ensures Closed(StoreOf(cas.address, cas.disk.dir), entries)
    {
      RunIsGood(x, root, events, worlds, |events|);
      GoodBuildsReadable(x, Now(), active, ops, built, entries);
    }

    /** The objects of every operation in the journal can be read. */
    ghost predicate Readable(journal: map<string, JS.BatchFile>)
      reads cas, cas.disk
    {
      exists entries :: JournalHolds(x.sum, journal, entries) && Closed(StoreOf(cas.address, cas.disk.dir), entries)
    }

    /** Apply and journal the batch in the staged copy, and check that every object of the
        staged journal can be read. */
    method FillStage(active: G.Generation, ops: seq<FT.Op>, mutations: seq<JS.JournalMutation>, pid: string,
                     calls: StageCalls, stage: GP.Stage)
      returns (filled: Option<GP.Stage>)
      requires Valid() && healthy && IsPid(pid) && GP.Staged(store.v, stage)
      requires active.repo.Some? && active.journal.Some? && IsActive(active)
      requires Admitted(x.codec, A.FilesOf(active.repo.value), ops) && AllPut(A.FilesOf(active.repo.value), ops, acked)
      requires mutations == MutationsFor(x.address, x.codec, A.FilesOf(active.repo.value), ops)
      modifies store, this`events, this`worlds
      ensures Valid() && store.active == old(store.active) && old(events) <= events
      ensures D.Now(store.v.gens, GenerationName(store.active.generation))
           == old(D.Now(store.v.gens, GenerationName(store.active.generation)))
      ensures filled.Some? ==>
        && GP.Staged(store.v, filled.value) && Built(x, active, ops, filled.value.content, acked)
        && Readable(filled.value.content.journal.value) && filled.value.generation == stage.generation
      ensures A.AllWork(calls.apply) && !cas.poisoned ==>
        (filled.Some? <==> Buildable(x, active, ops, mutations, pid, calls))
    {
      var built, entries := BuildStage(x, active, ops, mutations, pid, calls, acked);
      if built.None? {
        return None;
      }
      StagedIsReadable(active, ops, built.value, entries);
      StageBuilt(stage, built.value);
      var readable := ObjectsRead(entries);
      return if readable then Some(stage.(content := built.value)) else None;
    }

    /** Put the contents, stage a copy of the active generation, apply and journal the batch
        there, and check that every object of the staged journal can be read. */
    method BuildAndStage(ops: seq<FT.Op>, pid: string, pointer: string, calls: Calls) returns (stage: Option<GP.Stage>)
      requires Valid() && healthy && IsPid(pid) && pointer != G.ACTIVE_FILE && pointer != G.GENERATIONS_DIR
      requires D.Now(store.v.gens, GenerationName(store.active.generation)).Some?
      requires Active().repo.Some? && Active().journal.Some? && G.Opens(x.seals, x.id, store.v, store.active)
      requires Admitted(x.codec, A.FilesOf(Active().repo.value), ops)
      modifies cas, cas.disk, store, this`acked, this`stored, this`events, this`worlds
      ensures Valid() && old(events) <= events && store.active == old(store.active)
      ensures D.Now(store.v.gens, GenerationName(store.active.generation))
           == old(D.Now(store.v.gens, GenerationName(store.active.generation)))
      ensures stage.Some? ==>
        && GP.Staged(store.v, stage.value) && Built(x, old(Active()), ops, stage.value.content, acked)
        && Readable(stage.value.content.journal.value) && GS.IsNext(old(store.v).gens, stage.value.generation)
      ensures old(Smooth(Active(), ops, pid, calls)) ==> (stage.Some? <==> old(Stageable(Active(), ops, pid, calls)))
    {
      var active := Active();
      var mutations := PrepareMutations(A.FilesOf(active.repo.value), ops, pid, calls.puts);
      if mutations.None? {
        return None;
      }
      stage := StageAndFill(active, ops, mutations.value, pid, pointer, calls.stage);
    }

    method StageAndFill(active: G.Generation, ops: seq<FT.Op>, mutations: seq<JS.JournalMutation>, pid: string,
                        pointer: string, calls: StageCalls)
      returns (stage: Option<GP.Stage>)
      requires Valid() && healthy && IsPid(pid) && pointer != G.ACTIVE_FILE && pointer != G.GENERATIONS_DIR
      requires IsActive(active) && active.repo.Some? && active.journal.Some?
      requires G.Opens(x.seals, x.id, store.v, store.active)
      requires Admitted(x.codec, A.FilesOf(active.repo.value), ops) && AllPut(A.FilesOf(active.repo.value), ops, acked)
      requires mutations == MutationsFor(x.address, x.codec, A.FilesOf(active.repo.value), ops)
      modifies store, this`events, this`worlds
      ensures Valid() && old(events) <= events && store.active == old(store.active)
      ensures D.Now(store.v.gens, GenerationName(store.active.generation))
           == old(D.Now(store.v.gens, GenerationName(store.active.generation)))
      ensures stage.Some? ==>
        && GP.Staged(store.v, stage.value) && Built(x, active, ops, stage.value.content, acked)
        && Readable(stage.value.content.journal.value) && GS.IsNext(old(store.v).gens, stage.value.generation)
      ensures A.AllWork(calls.apply) && !cas.poisoned ==>
        (stage.Some? <==> GS.HasRoom(old(store.v).gens, pid) && Buildable(x, active, ops, mutations, pid, calls))
    {
      stage := StageCopy(pid, pointer);
      if stage.None? {
        return None;
      }
      stage := FillStage(active, ops, mutations, pid, calls, stage.value);
    }

    /** Every call up to the switch works, and contents fit. */
    ghost predicate Smooth(active: G.Generation, ops: seq<FT.Op>, pid: string, calls: Calls)
      reads cas, cas.disk
    {
      && Ready(pid) && active.repo.Some? && BatchFits(A.FilesOf(active.repo.value), ops)
      && AllPutsWork(calls.puts) && A.AllWork(calls.stage.apply)
    }

    /** A number is left, the batch applies to the active tree, and the journal takes it. */
    ghost predicate Stageable(active: G.Generation, ops: seq<FT.Op>, pid: string, calls: Calls)
      reads store
    {
      && active.repo.Some? && Admitted(x.codec, A.FilesOf(active.repo.value), ops)
      && GS.HasRoom(store.v.gens, pid)
      && var mutations := MutationsFor(x.address, x.codec, A.FilesOf(active.repo.value), ops);
        Buildable(x, active, ops, mutations, pid, calls.stage)
    }

    /** The batch is published when every call works. */
    ghost predicate Publishable(ops: seq<FT.Op>, pid: string, calls: Calls)
      reads store
    {
      var entry := D.Now(store.v.gens, GenerationName(store.active.generation));
      entry.Some? && Stageable(entry.value.data, ops, pid, calls)
      && Nameable(x, store.v.gens, store.active, calls)
    }

    ghost predicate AllCallsWork(ops: seq<FT.Op>, pid: string, calls: Calls)
      reads cas, cas.disk, store
    {
      var entry := D.Now(store.v.gens, GenerationName(store.active.generation));
      entry.Some? && Smooth(entry.value.data, ops, pid, calls) && Switches(calls)
    }

    /** The working files of the active generation. */
    function ActiveFiles(): Files
      reads store
    {
      var entry := D.Now(store.v.gens, GenerationName(store.active.generation));
      if entry.Some? && entry.value.data.repo.Some? then A.FilesOf(entry.value.data.repo.value) else map[]
    }
  }

  /** The new generation gets a checkpoint and a manifest. */
  ghost predicate Nameable(x: Setting, gens: G.GenerationsDir, active: G.Manifest, calls: Calls) {
    calls.checkpoint.Some? && forall next: Word64 :: GS.IsNext(gens, next) ==>
      G.NewManifest(x.seals, x.id, next, Some(G.Parent(active.generation, active.digest)),
                    calls.checkpoint.value).Some?
  }

  lemma NameableExactly(x: Setting, gens: G.GenerationsDir, active: G.Manifest, stage: GP.Stage, calls: Calls)
    requires GS.IsNext(gens, stage.generation) && calls.checkpoint.Some?
    ensures Nameable(x, gens, active, calls)
       <==> GP.ManifestFor(x.seals, x.id, active, stage, calls.checkpoint.value).Some?
  {
    forall next: Word64 | GS.IsNext(gens, next) ensures next == stage.generation {
      GS.NextIsOne(gens, next, stage.generation);
    }
  }

  lemma GoodBuildsReadable(x: Setting, w: World, active: G.Generation, ops: seq<FT.Op>, built: G.Generation,
                           entries: seq<JournalOp>)
    requires Good(x, w) && GR.CanWrite(w.gen) && Built(x, active, ops, built, w.acked)
    requires var entry := D.Now(w.gen.v.gens, GenerationName(w.gen.active.value.generation));
      entry.Some? && entry.value.data == active
    requires JournalHolds(x.sum, built.journal.value, entries)
    ensures Closed(StoreOf(x.address, w.cas.dir), entries)
  {
    ActiveIsFaithful(x, w);
    BuiltIsFaithful(x, w.cas.dir, active, ops, built, w.acked, w.stored);
    var chain :| FaithfulBy(x, w.cas.dir, w.stored, built, chain);
    var held :| JS.Stores(built.journal.value, held) && Linked(x.sum, held) && entries == ChainOps(held);
    JS.StoredChainIsUnique(x.sum, built.journal.value, chain, held);
    KeptIsClosed(x.address, w.cas.dir, entries);
  }

  lemma KeptIsClosed(address: C.Address, d: D.Directory<C.Object>, ops: seq<JournalOp>)
    requires Kept(address, d, ops) && C.Sound(address, d)
    ensures Closed(StoreOf(address, d), ops)
  {
    forall i | 0 <= i < |ops| ensures OpResolves(StoreOf(address, d), ops[i]) {
      forall k | 0 <= k < |DigestsOf(ops[i])| ensures StoreOf(address, d)(DigestsOf(ops[i])[k]).Some? {
        C.DurableIsReadable(address, d, d, DigestsOf(ops[i])[k]);
      }
    }
  }

  lemma PuttingStep(x: Setting, w: World, t: World, bytes: Bytes, staging: Option<string>, calls: C.PutCalls)
    requires w.cas.usable && C.Fresh(w.cas.dir, staging) && t.gen == w.gen && t.stored == w.stored + {bytes}
    requires var p := C.PutObject(x.address, w.cas.dir, bytes, staging, calls);
      && t.cas == C.Store(D.Final(w.cas.dir, p.states), p.result != Err(C.OutcomeUnknown))
      && t.acked == if p.result.Ok? then w.acked + {bytes} else w.acked
    ensures Next(x, w, Putting(bytes, staging, calls), t)
  {
  }

  lemma OpeningStep(x: Setting, w: World, t: World)
    requires w.gen.active.None? && t.gen.v == w.gen.v && t.gen.healthy && t.gen.active.Some?
    requires G.Opens(x.seals, x.id, w.gen.v, t.gen.active.value) && t.acked == w.acked && t.stored == w.stored
    requires C.Next(x.address, w.cas, C.Opening(true), t.cas)
    ensures Next(x, w, Opening(true), t)
  {
  }

  lemma StagingStep(x: Setting, w: World, t: World, name: string, content: G.Generation)
    requires GR.CanWrite(w.gen) && IsStageName(name)
    requires t == w.(gen := w.gen.(v := G.Volume(w.gen.v.work,
      D.Put(w.gen.v.gens, name, Some(D.Item(D.Folder, content, false))))))
    ensures Next(x, w, Staging(name, content), t)
  {
  }

  lemma PublishingGen(x: Setting, w: World, t: World, ops: seq<FT.Op>, stage: GP.Stage, checkpoint: Checkpoint,
                      done: nat,
                      reopens: bool)
    ensures Legit(x, w, ops, stage.content)
         && GR.Next(x.seals, x.id, w.gen, GR.Publishing(stage, checkpoint, done, reopens), t.gen)
        ==> GenNext(x, w, Publishing(ops, stage, checkpoint, done, reopens), t)
  {
  }

  lemma PublishingStep(x: Setting, w: World, t: World, ops: seq<FT.Op>, stage: GP.Stage, checkpoint: Checkpoint,
                       done: nat,
                       reopens: bool)
    requires t == w.(gen := t.gen)
    ensures GenNext(x, w, Publishing(ops, stage, checkpoint, done, reopens), t) ==>
      Next(x, w, Publishing(ops, stage, checkpoint, done, reopens), t)
  {
  }

  /** After a completed publication the new generation's entry holds what was staged. */
  lemma PublishedEntry(seals: G.Seals, v: G.Volume, stage: GP.Stage, m: G.Manifest)
    requires GP.Staged(v, stage) && m.generation == stage.generation
    ensures D.Now(GP.After(seals, v, stage, m, GP.STEPS).gens, GenerationName(m.generation))
         == Some(D.Item(D.Folder, GP.Full(stage, m), true))
  {
    GP.FinalIsFree(v.gens, stage);
  }

  lemma BuiltAnyway(x: Setting, active: G.Generation, ops: seq<FT.Op>, built: G.Generation, full: G.Generation,
                    acked: set<Bytes>)
    requires Built(x, active, ops, built, acked) && full.repo == built.repo && full.journal == built.journal
    ensures Built(x, active, ops, full, acked)
  {
  }

  /** Staging leaves the active generation's entry alone. */
  lemma StageLeavesActive(gens: G.GenerationsDir, name: string, content: G.Generation, generation: nat)
    requires IsStageName(name) && generation < TWO_TO_THE_64
    ensures D.Now(D.Put(gens, name, Some(D.Item(D.Folder, content, false))), GenerationName(generation))
         == D.Now(gens, GenerationName(generation))
  {
    GenerationNameExact(GenerationName(generation), generation);
  }

  lemma PutMore(files: Files, ops: seq<FT.Op>, n: nat, before: set<Bytes>, after: set<Bytes>)
    requires n < |ops| && AllPut(files, ops[..n], before) && before <= after
    requires forall b :: b in BytesFor(files, ops[n]) ==> b in after
    ensures AllPut(files, ops[..n + 1], after)
  {
    var more := ops[..n + 1];
    forall i, b | 0 <= i < |more| && b in BytesFor(files, more[i]) ensures b in after {
      assert i < n ==> more[i] == ops[..n][i];
    }
  }
}
