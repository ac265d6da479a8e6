/** Every run of a workspace: its content store and its generations together.

  A publication stores contents, stages a copy of the active generation, applies the batch to
  its tree, appends the batch to its journal and switches to it.  Puts and publications may
  fail or die at any step, the machine may crash, and after a crash the active generation may
  be an earlier one.
*/
module WorkspaceRuns {
  import opened Framing
  import N = Names
  import opened Journal
  import JS = JournalStore
  import D = Durability
  import C = Cas
  import A = Apply
  import FT = FileTree
  import G = Generations
  import GP = GenerationPublish
  import GR = GenerationRuns
  import opened History
  import opened Runs

  /** What does not change: digests, encodings, the workspace, and the files it was cloned with. */
  datatype Setting = Setting(
    address: C.Address, sum: Checksum, codec: PathCodec, seals: G.Seals, id: G.Identity, base: Files)

  /** The content store, the generations with their writer, the contents that were put with
      success, and all contents that were ever there. */
  datatype World = World(cas: C.Store, gen: GR.Writer, acked: set<Bytes>, stored: set<Bytes>)

  datatype Event =
    | Putting(bytes: Bytes, staging: Option<string>, calls: C.PutCalls)
    | PuttingDies(bytes: Bytes, staging: Option<string>, calls: C.PutCalls, after: nat)
    | Staging(name: string, content: G.Generation)
    | Publishing(ops: seq<FT.Op>, stage: GP.Stage, checkpoint: Checkpoint, done: nat, reopens: bool)
    | PublishingDies(ops: seq<FT.Op>, stage: GP.Stage, checkpoint: Checkpoint, done: nat)
    | Killed
    | Crashing
    | Opening(synced: bool)

  // ---------- what a publication may stage ----------

  /** The contents of the batch, before and after. */
  ghost predicate AllPut(files: Files, ops: seq<FT.Op>, acked: set<Bytes>) {
    forall i, b :: 0 <= i < |ops| && b in BytesFor(files, ops[i]) ==> b in acked
  }

  /** The journal files hold `chain` extended by the record of the batch, if it is not empty. */
  ghost predicate Journalled(x: Setting, files: Files, ops: seq<FT.Op>, chain: seq<StoredBatch>,
                             journal: map<string, JS.BatchFile>)
    requires Admitted(x.codec, files, ops)
  {
    var mutations := MutationsFor(x.address, x.codec, files, ops);
    if ops == [] then JS.Stores(journal, chain)
    else JS.Appendable(chain, mutations) && JS.Stores(journal, chain + [JS.BatchFor(x.sum, chain, mutations)])
  }

  /** `built` is `active` with the batch applied to its tree and appended to its journal. */
  ghost predicate Built(x: Setting, active: G.Generation, ops: seq<FT.Op>, built: G.Generation, acked: set<Bytes>) {
    && active.repo.Some? && active.journal.Some? && built.repo.Some? && built.journal.Some?
    && FT.ApplyAll(active.repo.value, ops) == Some(built.repo.value)
    && var files := A.FilesOf(active.repo.value);
      && Admitted(x.codec, files, ops) && AllPut(files, ops, acked)
      && exists chain :: JS.Stores(active.journal.value, chain) && Chained(x.sum, chain)
           && Journalled(x, files, ops, chain, built.journal.value)
  }

  /** The staged content was built from the generation the writer holds active. */
  ghost predicate Legit(x: Setting, w: World, ops: seq<FT.Op>, built: G.Generation) {
    && w.gen.active.Some?
    && var entry := D.Now(w.gen.v.gens, N.GenerationName(w.gen.active.value.generation));
      entry.Some? && Built(x, entry.value.data, ops, built, w.acked)
  }

  // ---------- runs ----------

  function Dead(gen: GR.Writer): GR.Writer {
    GR.Writer(gen.v, None, false)
  }

  predicate PutOk(x: Setting, w: World, e: Event) {
    e.Putting? && C.PutObject(x.address, w.cas.dir, e.bytes, e.staging, e.calls).result.Ok?
  }

  /** What an event does to the content store. */
  ghost predicate CasNext(x: Setting, w: World, e: Event, t: World) {
    match e
    case Putting(bytes, staging, calls) => C.Next(x.address, w.cas, C.Putting(bytes, staging, calls), t.cas)
    case PuttingDies(bytes, staging, calls, after) => C.Next(x.address, w.cas, C.Dying(bytes, staging, calls, after),
      t.cas)
    case Crashing => C.Next(x.address, w.cas, C.Crashing, t.cas)
    case Opening(synced) => C.Next(x.address, w.cas, C.Opening(synced), t.cas)
    case Killed => t.cas == w.cas.(usable := false)
    case PublishingDies(_, _, _, _) => t.cas == w.cas.(usable := false)
    case Staging(_, _) => t.cas == w.cas
    case Publishing(_, _, _, _, _) => t.cas == w.cas
  }

  /** What an event does to the generations. */
  ghost predicate GenNext(x: Setting, w: World, e: Event, t: World) {
    match e
    case Putting(_, _, _) => t.gen == w.gen
    case PuttingDies(_, _, _, _) => t.gen == Dead(w.gen)
    case Killed => t.gen == Dead(w.gen)
    case Staging(name, content) => GR.Next(x.seals, x.id, w.gen, GR.Staging(name, content), t.gen)
    case Publishing(ops, stage, checkpoint, done, reopens) =>
      Legit(x, w, ops, stage.content)
        && GR.Next(x.seals, x.id, w.gen, GR.Publishing(stage, checkpoint, done, reopens), t.gen)
    case PublishingDies(ops, stage, checkpoint, done) =>
      Legit(x, w, ops, stage.content) && GR.Next(x.seals, x.id, w.gen, GR.Dying(stage, checkpoint, done), t.gen)
    case Crashing => GR.Next(x.seals, x.id, w.gen, GR.Crashing, t.gen)
    case Opening(_) => w.gen.active.None? && GR.Next(x.seals, x.id, w.gen, GR.Opening, t.gen)
  }

  function Brings(e: Event): set<Bytes> {
    match e case Putting(bytes, _, _) => {bytes} case PuttingDies(bytes, _, _, _) => {bytes} case _ => {}
  }

  ghost predicate Next(x: Setting, w: World, e: Event, t: World) {
    && CasNext(x, w, e, t) && GenNext(x, w, e, t)
    && t.stored == w.stored + Brings(e) && t.acked == if PutOk(x, w, e) then w.acked + {e.bytes} else w.acked
  }

  ghost function Step(x: Setting): (World, Event, World) -> bool {
    (w, e, t) => Next(x, w, e, t)
  }

  ghost predicate Run(x: Setting, events: seq<Event>, worlds: seq<World>) {
    IsRun(Step(x), events, worlds)
  }

  // ---------- faithful generations ----------

  /** Two different contents that were there share a digest. */
  ghost predicate Clash(address: C.Address, stored: set<Bytes>) {
    exists a, b :: a in stored && b in stored && a != b && address(a) == address(b)
  }

  /** Every digest of the journal is durable in the content store. */
  ghost predicate Kept(address: C.Address, d: D.Directory<C.Object>, ops: seq<JournalOp>) {
    forall i, k :: 0 <= i < |ops| && 0 <= k < |DigestsOf(ops[i])| ==> C.Durable(address, d, DigestsOf(ops[i])[k])
  }

  /** The generation's journal is `chain` and its objects are durable; it leads from the files of
      the clone to the generation's files and back, or two contents share a digest. */
  ghost predicate FaithfulBy(x: Setting, d: D.Directory<C.Object>, stored: set<Bytes>, g: G.Generation,
                             chain: seq<StoredBatch>) {
    && g.repo.Some? && g.journal.Some? && JS.Stores(g.journal.value, chain) && Linked(x.sum, chain)
    && Kept(x.address, d, ChainOps(chain))
    && (|| Clash(x.address, stored)
        || Replays(x.codec, StoreOf(x.address, d), x.base, A.FilesOf(g.repo.value), ChainOps(chain)))
  }

  ghost predicate Faithful(x: Setting, d: D.Directory<C.Object>, stored: set<Bytes>, g: G.Generation) {
    exists chain :: FaithfulBy(x, d, stored, g, chain)
  }

  ghost predicate AllFaithful(x: Setting, d: D.Directory<C.Object>, stored: set<Bytes>,
                              chains: set<seq<G.Generation>>) {
    forall chain, g :: chain in chains && g in chain ==> Faithful(x, d, stored, g)
  }

  lemma KeptStays(address: C.Address, a: D.Directory<C.Object>, b: D.Directory<C.Object>, ops: seq<JournalOp>)
    requires Kept(address, a, ops) && C.Step(address, a, b)
    ensures Kept(address, b, ops) && Agrees(StoreOf(address, a), StoreOf(address, b), ops)
  {
    forall i, k | 0 <= i < |ops| && 0 <= k < |DigestsOf(ops[i])|
      ensures C.Durable(address, b, DigestsOf(ops[i])[k])
      ensures StoreOf(address, b)(DigestsOf(ops[i])[k]) == StoreOf(address, a)(DigestsOf(ops[i])[k])
    {
      C.DurableStays(address, a, b, DigestsOf(ops[i])[k]);
    }
  }

  lemma FaithfulStays(x: Setting, a: D.Directory<C.Object>, b: D.Directory<C.Object>, stored: set<Bytes>,
                      more: set<Bytes>,
                      g: G.Generation)
    requires Faithful(x, a, stored, g) && C.Step(x.address, a, b) && stored <= more
    ensures Faithful(x, b, more, g)
  {
    var chain :| FaithfulBy(x, a, stored, g, chain);
    KeptStays(x.address, a, b, ChainOps(chain));
    if !Clash(x.address, stored) {
      ReplaysElsewhere(x.codec, StoreOf(x.address, a), StoreOf(x.address, b), x.base, A.FilesOf(g.repo.value),
        ChainOps(chain));
    }
    assert FaithfulBy(x, b, more, g, chain);
  }

  lemma AllFaithfulStays(x: Setting, a: D.Directory<C.Object>, b: D.Directory<C.Object>, stored: set<Bytes>,
                         more: set<Bytes>, chains: set<seq<G.Generation>>)
    requires AllFaithful(x, a, stored, chains) && C.Step(x.address, a, b) && stored <= more
    ensures AllFaithful(x, b, more, chains)
  {
    forall chain, g | chain in chains && g in chain ensures Faithful(x, b, more, g) {
      FaithfulStays(x, a, b, stored, more, g);
    }
  }

  // ---------- a built generation is faithful ----------

  /** Contents put with success are durable and were there. */
  ghost predicate AckedAreDurable(x: Setting, d: D.Directory<C.Object>, acked: set<Bytes>, stored: set<Bytes>) {
    forall b :: b in acked ==> b in stored && C.Durable(x.address, d, x.address(b))
  }

  lemma AckedIsHeld(x: Setting, d: D.Directory<C.Object>, acked: set<Bytes>, stored: set<Bytes>, b: Bytes)
    requires AckedAreDurable(x, d, acked, stored) && C.Stocked(d, stored) && !Clash(x.address, stored) && b in acked
    ensures Holds(x.address, StoreOf(x.address, d), b)
  {
    C.DurableIsStocked(x.address, d, x.address(b), stored);
  }

  lemma DigestsAreKept(x: Setting, d: D.Directory<C.Object>, files: Files, op: FT.Op, entry: JournalOp,
                       acked: set<Bytes>,
                       stored: set<Bytes>, k: nat)
    requires AckedAreDurable(x, d, acked, stored) && RecordsChange(x.address, x.codec, files, op, entry)
    requires (forall b :: b in BytesFor(files, op) ==> b in acked) && k < |DigestsOf(entry)|
    ensures C.Durable(x.address, d, DigestsOf(entry)[k])
  {
    if op.path in files {
      assert BytesFor(files, op)[0] == files[op.path];
    }
    if op.mutation.Write? {
      var contents := BytesFor(files, op);
      assert contents[|contents| - 1] == op.mutation.content;
    }
  }

  lemma BatchIsKept(x: Setting, d: D.Directory<C.Object>, files: Files, ops: seq<FT.Op>, entries: seq<JournalOp>,
                    acked: set<Bytes>, stored: set<Bytes>)
    requires AckedAreDurable(x, d, acked, stored)
    requires RecordsAll(x.address, x.codec, files, ops, entries) && AllPut(files, ops, acked)
    ensures Kept(x.address, d, entries)
  {
    forall i, k | 0 <= i < |entries| && 0 <= k < |DigestsOf(entries[i])|
      ensures C.Durable(x.address, d, DigestsOf(entries[i])[k])
    {
      DigestsAreKept(x, d, files, ops[i], entries[i], acked, stored, k);
    }
  }

  lemma KeptBatchReplays(x: Setting, d: D.Directory<C.Object>, files: Files, ops: seq<FT.Op>, entries: seq<JournalOp>,
                         acked: set<Bytes>, stored: set<Bytes>)
    requires AckedAreDurable(x, d, acked, stored) && C.Stocked(d, stored) && !Clash(x.address, stored)
    requires DistinctPaths(ops) && RecordsAll(x.address, x.codec, files, ops, entries) && AllPut(files, ops, acked)
    ensures Replays(x.codec, StoreOf(x.address, d), files, Patched(files, ops), entries)
  {
    forall i | 0 <= i < |ops| ensures HoldsFor(x.address, StoreOf(x.address, d), files, ops[i]) {
      forall b | b in BytesFor(files, ops[i]) ensures Holds(x.address, StoreOf(x.address, d), b) {
        AckedIsHeld(x, d, acked, stored, b);
      }
    }
    BatchReplays(x.address, x.codec, StoreOf(x.address, d), files, ops, entries);
  }

  lemma KeptAppend(address: C.Address, d: D.Directory<C.Object>, a: seq<JournalOp>, b: seq<JournalOp>)
    requires Kept(address, d, a) && Kept(address, d, b)
    ensures Kept(address, d, a + b)
  {
    forall i, k | 0 <= i < |a + b| && 0 <= k < |DigestsOf((a + b)[i])|
      ensures C.Durable(address, d, DigestsOf((a + b)[i])[k])
    {
      if i < |a| {
        assert (a + b)[i] == a[i];
      } else {
        assert (a + b)[i] == b[i - |a|];
      }
    }
  }

  lemma LongerIsFaithful(x: Setting, d: D.Directory<C.Object>, active: G.Generation, chain: seq<StoredBatch>,
                         ops: seq<FT.Op>, built: G.Generation, acked: set<Bytes>, stored: set<Bytes>)
    requires FaithfulBy(x, d, stored, active, chain) && ops != []
    requires AckedAreDurable(x, d, acked, stored) && C.Stocked(d, stored)
    requires built.repo.Some? && built.journal.Some? && FT.ApplyAll(active.repo.value, ops) == Some(built.repo.value)
    requires Admitted(x.codec, A.FilesOf(active.repo.value), ops) && AllPut(A.FilesOf(active.repo.value), ops, acked)
    requires Journalled(x, A.FilesOf(active.repo.value), ops, chain, built.journal.value)
    ensures Faithful(x, d, stored, built)
  {
    var files := A.FilesOf(active.repo.value);
    var mutations := MutationsFor(x.address, x.codec, files, ops);
    var start := NextSequence(chain);
    var entries := JS.OpsFor(start, mutations);
    var longer := chain + [JS.BatchFor(x.sum, chain, mutations)];
    JS.AppendExtends(x.sum, chain, mutations);
    OpsRecord(x.address, x.codec, files, ops, start);
    BatchIsKept(x, d, files, ops, entries, acked, stored);
    KeptAppend(x.address, d, ChainOps(chain), entries);
    if !Clash(x.address, stored) {
      KeptBatchReplays(x, d, files, ops, entries, acked, stored);
      ApplyPatches(active.repo.value, ops, built.repo.value);
      ReplaysAppend(x.codec, StoreOf(x.address, d), x.base, files, Patched(files, ops), ChainOps(chain), entries);
    }
    assert FaithfulBy(x, d, stored, built, longer);
  }

  /** A generation built from a faithful one is faithful. */
  lemma BuiltIsFaithful(x: Setting, d: D.Directory<C.Object>, active: G.Generation, ops: seq<FT.Op>,
                        built: G.Generation,
                        acked: set<Bytes>, stored: set<Bytes>)
    requires Built(x, active, ops, built, acked) && Faithful(x, d, stored, active)
    requires AckedAreDurable(x, d, acked, stored) && C.Stocked(d, stored)
    ensures Faithful(x, d, stored, built)
  {
    var files := A.FilesOf(active.repo.value);
    var chain :| FaithfulBy(x, d, stored, active, chain);
    var loaded :| JS.Stores(active.journal.value, loaded) && Chained(x.sum, loaded)
      && Journalled(x, files, ops, loaded, built.journal.value);
    JS.StoredChainIsUnique(x.sum, active.journal.value, chain, loaded);
    if ops == [] {
      assert FaithfulBy(x, d, stored, built, chain);
    } else {
      LongerIsFaithful(x, d, active, chain, ops, built, acked, stored);
    }
  }

  // ---------- every reachable world is good ----------

  ghost predicate CasGood(x: Setting, w: World) {
    && C.Sound(x.address, w.cas.dir) && C.Stocked(w.cas.dir, w.stored)
    && AckedAreDurable(x, w.cas.dir, w.acked, w.stored)
  }

  ghost predicate GenGood(x: Setting, w: World, chains: set<seq<G.Generation>>) {
    GR.Tracks(x.seals, x.id, w.gen, chains) && AllFaithful(x, w.cas.dir, w.stored, chains)
  }

  ghost predicate Good(x: Setting, w: World) {
    CasGood(x, w) && exists chains :: GenGood(x, w, chains)
  }

  /** The content store's part of an event, where it has one. */
  function CasEvent(e: Event): Option<C.Event> {
    match e
    case Putting(bytes, staging, calls) => Some(C.Putting(bytes, staging, calls))
    case PuttingDies(bytes, staging, calls, after) => Some(C.Dying(bytes, staging, calls, after))
    case Crashing => Some(C.Crashing)
    case Opening(synced) => Some(C.Opening(synced))
    case _ => None
  }

  lemma CasStep(x: Setting, w: World, e: Event, t: World)
    requires CasGood(x, w) && Next(x, w, e, t)
    ensures C.Step(x.address, w.cas.dir, t.cas.dir) && C.Stocked(t.cas.dir, t.stored)
  {
    if CasEvent(e).Some? {
      C.NextIsStep(x.address, w.cas, CasEvent(e).value, t.cas);
      C.NextStocked(x.address, w.cas, CasEvent(e).value, t.cas, t.stored);
    }
  }

  lemma CasStaysGood(x: Setting, w: World, e: Event, t: World)
    requires CasGood(x, w) && Next(x, w, e, t)
    ensures CasGood(x, t) && C.Step(x.address, w.cas.dir, t.cas.dir)
  {
    CasStep(x, w, e, t);
    forall b | b in t.acked ensures b in t.stored && C.Durable(x.address, t.cas.dir, x.address(b)) {
      if b in w.acked {
        C.DurableStays(x.address, w.cas.dir, t.cas.dir, x.address(b));
      } else {
        C.AcknowledgedIsDurable(x.address, w.cas, CasEvent(e).value, t.cas);
      }
    }
  }

  /** The generations' part of an event, where it has one. */
  function GenEvent(e: Event): Option<GR.Event> {
    match e
    case Staging(name, content) => Some(GR.Staging(name, content))
    case Publishing(_, stage, checkpoint, done, reopens) => Some(GR.Publishing(stage, checkpoint, done, reopens))
    case PublishingDies(_, stage, checkpoint, done) => Some(GR.Dying(stage, checkpoint, done))
    case Crashing => Some(GR.Crashing)
    case Opening(_) => Some(GR.Opening)
    case _ => None
  }

  lemma FollowedIsActive(x: Setting, w: World, chains: set<seq<G.Generation>>, prior: seq<G.Generation>)
    requires GR.Tracks(x.seals, x.id, w.gen, chains) && prior in chains && prior != [] && w.gen.active.Some?
    requires prior[0].manifest == w.gen.active
    ensures D.Now(w.gen.v.gens,
      N.GenerationName(w.gen.active.value.generation)) == Some(D.Item(D.Folder, prior[0], true))
  {
    assert GP.Owned(x.seals, x.id, w.gen.v.gens, prior);
  }

  /** Whatever an attempt adds is built from a faithful generation. */
  lemma AddedIsFaithful(x: Setting, w: World, ops: seq<FT.Op>, e: GR.Event, chains: set<seq<G.Generation>>,
                        next: seq<G.Generation>)
    requires CasGood(x, w) && GenGood(x, w, chains) && GR.Adds(x.seals, x.id, w.gen, e, chains, next)
    requires Legit(x, w, ops, e.stage.content)
    ensures forall g :: g in next ==> Faithful(x, w.cas.dir, w.stored, g)
  {
    var prior := next[1..];
    FollowedIsActive(x, w, chains, prior);
    BuiltIsFaithful(x, w.cas.dir, prior[0], ops, e.stage.content, w.acked, w.stored);
    ManifestIsNoMatter(x, w.cas.dir, w.stored, e.stage.content, next[0]);
    assert forall g :: g in next ==> g == next[0] || g in prior;
  }

  lemma ManifestIsNoMatter(x: Setting, d: D.Directory<C.Object>, stored: set<Bytes>, g: G.Generation, h: G.Generation)
    requires Faithful(x, d, stored, g) && h.repo == g.repo && h.journal == g.journal
    ensures Faithful(x, d, stored, h)
  {
    var chain :| FaithfulBy(x, d, stored, g, chain);
    assert FaithfulBy(x, d, stored, h, chain);
  }

  lemma NameableFaithful(x: Setting, d: D.Directory<C.Object>, stored: set<Bytes>, chains: set<seq<G.Generation>>,
                         next: seq<G.Generation>, done: nat)
    requires AllFaithful(x, d, stored, chains) && forall g :: g in next ==> Faithful(x, d, stored, g)
    ensures AllFaithful(x, d, stored, GR.Nameable(chains, next, done))
  {
  }

  lemma DeadTracks(x: Setting, gen: GR.Writer, chains: set<seq<G.Generation>>)
    requires GR.Tracks(x.seals, x.id, gen, chains)
    ensures GR.Tracks(x.seals, x.id, Dead(gen), chains)
  {
  }

  lemma AttemptStaysGood(x: Setting, w: World, e: GR.Event, gen: GR.Writer, ops: seq<FT.Op>,
                         chains: set<seq<G.Generation>>)
    returns (after: set<seq<G.Generation>>)
    requires CasGood(x, w) && GenGood(x, w, chains) && GR.Attempts(e) && GR.Next(x.seals, x.id, w.gen, e, gen)
    requires Legit(x, w, ops, e.stage.content)
    ensures GR.Tracks(x.seals, x.id, gen, after) && AllFaithful(x, w.cas.dir, w.stored, after)
  {
    var next;
    after, next := GR.NextTracks(x.seals, x.id, w.gen, e, gen, chains);
    AddedIsFaithful(x, w, ops, e, chains, next);
    NameableFaithful(x, w.cas.dir, w.stored, chains, next, e.done);
  }

  /** The chains after an event, faithful in the content store before it. */
  lemma GenStaysGood(x: Setting, w: World, e: Event, t: World, chains: set<seq<G.Generation>>)
    returns (after: set<seq<G.Generation>>)
    requires CasGood(x, w) && GenGood(x, w, chains) && GenNext(x, w, e, t)
    ensures GR.Tracks(x.seals, x.id, t.gen, after) && AllFaithful(x, w.cas.dir, w.stored, after)
  {
    if e.Publishing? || e.PublishingDies? {
      after := AttemptStaysGood(x, w, GenEvent(e).value, t.gen, e.ops, chains);
    } else {
      after := QuietTracks(x, w, e, t, chains);
      AllFaithfulFewer(x, w.cas.dir, w.stored, chains, after);
    }
  }

  lemma QuietTracks(x: Setting, w: World, e: Event, t: World, chains: set<seq<G.Generation>>)
    returns (after: set<seq<G.Generation>>)
    requires GR.Tracks(x.seals, x.id, w.gen, chains) && GenNext(x, w, e, t) && !e.Publishing? && !e.PublishingDies?
    ensures GR.Tracks(x.seals, x.id, t.gen, after) && after <= chains
  {
    if GenEvent(e).None? {
      DeadTracks(x, w.gen, chains);
      after := chains;
    } else {
      var next;
      after, next := GR.NextTracks(x.seals, x.id, w.gen, GenEvent(e).value, t.gen, chains);
    }
  }

  lemma AllFaithfulFewer(x: Setting, d: D.Directory<C.Object>, stored: set<Bytes>, chains: set<seq<G.Generation>>,
                         fewer: set<seq<G.Generation>>)
    requires AllFaithful(x, d, stored, chains) && fewer <= chains
    ensures AllFaithful(x, d, stored, fewer)
  {
  }

  lemma NextStaysGood(x: Setting, w: World, e: Event, t: World)
    requires Good(x, w) && Next(x, w, e, t)
    ensures Good(x, t)
  {
    var chains :| GenGood(x, w, chains);
    var after := GenStaysGood(x, w, e, t, chains);
    CasStaysGood(x, w, e, t);
    AllFaithfulStays(x, w.cas.dir, t.cas.dir, w.stored, t.stored, after);
    assert GenGood(x, t, after);
  }

  /** What a working writer holds active opens, and is on disk. */
  lemma ActiveOpens(x: Setting, w: World)
    requires Good(x, w) && GR.CanWrite(w.gen)
    ensures G.Opens(x.seals, x.id, w.gen.v, w.gen.active.value)
    ensures var entry := D.Now(w.gen.v.gens, N.GenerationName(w.gen.active.value.generation));
      entry.Some? && entry.value.data.repo.Some? && entry.value.data.journal.Some?
  {
    var chains :| GenGood(x, w, chains);
    var chain :| chain in chains && GP.Shown(x.seals, w.gen.v, chain) && GP.Top(chain) == w.gen.active.value;
    GP.ShownOpens(x.seals, x.id, w.gen.v, chains, chain);
  }

  lemma ActiveIsFaithful(x: Setting, w: World)
    requires Good(x, w) && GR.CanWrite(w.gen)
    ensures var entry := D.Now(w.gen.v.gens, N.GenerationName(w.gen.active.value.generation));
      entry.Some? && Faithful(x, w.cas.dir, w.stored, entry.value.data)
  {
    var chains :| GenGood(x, w, chains);
    var chain :| chain in chains && GP.Shown(x.seals, w.gen.v, chain) && GP.Top(chain) == w.gen.active.value;
    assert chain[0] in chain;
    FollowedIsActive(x, w, chains, chain);
  }

  // ---------- invertible history ----------

  /** A workspace just cloned: a sound content store and one certain root generation with the
      files of the clone and an empty journal. */
  ghost predicate Cloned(x: Setting, w: World, root: G.Generation) {
    && C.Sound(x.address, w.cas.dir) && C.Stocked(w.cas.dir, w.stored) && w.acked == {}
    && GR.Tracks(x.seals, x.id, w.gen, {[root]})
    && root.repo.Some? && root.journal.Some? && A.FilesOf(root.repo.value) == x.base
      && JS.Stores(root.journal.value, [])
  }

  lemma ClonedIsGood(x: Setting, w: World, root: G.Generation)
    requires Cloned(x, w, root)
    ensures Good(x, w)
  {
    assert FaithfulBy(x, w.cas.dir, w.stored, root, []);
    assert AllFaithful(x, w.cas.dir, w.stored, {[root]});
    assert GenGood(x, w, {[root]});
  }

  lemma RunIsGood(x: Setting, root: G.Generation, events: seq<Event>, worlds: seq<World>, at: nat)
    requires Run(x, events, worlds) && Cloned(x, worlds[0], root) && at < |worlds|
    ensures Good(x, worlds[at])
  {
    ClonedIsGood(x, worlds[0], root);
    forall w, e, t | Good(x, w) && Step(x)(w, e, t) ensures Good(x, t) {
      NextStaysGood(x, w, e, t);
    }
    StaysTrue(Step(x), w => Good(x, w), events, worlds, 0, at);
  }

  /** Durable chains under one manifest have one head. */
  lemma OpenedHead(x: Setting, v: G.Volume, a: seq<G.Generation>, b: seq<G.Generation>)
    requires GP.OpensAs(x.seals, x.id, v, a) && GP.OpensAs(x.seals, x.id, v, b)
    ensures a[0] == b[0]
  {
    GR.OpensOnce(x.seals, x.id, v, GP.Top(a), GP.Top(b));
  }

  lemma GoodOpensFaithful(x: Setting, w: World, found: seq<G.Generation>)
    requires Good(x, w) && GP.OpensAs(x.seals, x.id, w.gen.v, found)
    ensures Faithful(x, w.cas.dir, w.stored, found[0])
  {
    var chains :| GenGood(x, w, chains);
    var chain := GR.VisibleChain(x.seals, x.id, w.gen.v, chains);
    OpenedHead(x, w.gen.v, chain, found);
    assert chain[0] in chain;
  }

  lemma GoodOpens(x: Setting, w: World)
    requires Good(x, w)
    ensures C.Accepted(x.address, w.cas.dir)
    ensures exists chain :: GP.OpensAs(x.seals, x.id, w.gen.v, chain)
  {
    var chains :| GenGood(x, w, chains);
    var chain := GR.VisibleChain(x.seals, x.id, w.gen.v, chains);
  }

  /** Invertible history: in every state of every run, with failures, deaths, crashes and
      reopenings anywhere, the content store opens and some generation does; and whichever
      generation that is, every digest of its journal is durable in the content store, and its
      journal replayed forwards from the files of the clone gives its files and backwards from
      them the files of the clone, or two contents that were there share a digest. */
  lemma HistoryIsInvertible(x: Setting, root: G.Generation, events: seq<Event>, worlds: seq<World>, at: nat)
    requires Run(x, events, worlds) && Cloned(x, worlds[0], root) && at < |worlds|
    ensures C.Accepted(x.address, worlds[at].cas.dir)
    ensures exists chain :: GP.OpensAs(x.seals, x.id, worlds[at].gen.v, chain)
    ensures forall chain :: GP.OpensAs(x.seals, x.id, worlds[at].gen.v, chain) ==>
      Faithful(x, worlds[at].cas.dir, worlds[at].stored, chain[0])
  {
    RunIsGood(x, root, events, worlds, at);
    GoodOpens(x, worlds[at]);
    forall chain | GP.OpensAs(x.seals, x.id, worlds[at].gen.v, chain)
      ensures Faithful(x, worlds[at].cas.dir, worlds[at].stored, chain[0])
    {
      GoodOpensFaithful(x, worlds[at], chain);
    }
  }
}
