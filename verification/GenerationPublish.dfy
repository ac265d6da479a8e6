/** Publishing a generation: one fixed order of writes, syncs and renames.

  A publication is the list of the nine states the volume passes through; a
  failure or a crash stops it after some prefix.  The pointer may name only
  generations whose whole lineage is already durable, and that is what makes
  every crash land on the prior or the next generation.
*/
module GenerationPublish {
  import opened Framing
  import opened Names
  import opened Durability
  import opened Journal
  import opened Generations

  // ---------- durable lineages ----------

  predicate Complete(g: Generation) {
    g.manifest.Some? && g.repo.Some? && g.journal.Some?
  }

  function DirName(g: Generation): string
    requires Complete(g)
  {
    GenerationName(g.manifest.value.generation)
  }

  /** `chain` is a complete lineage, child before parent, and no crash can lose or change it. */
  predicate Held(seals: Seals, id: Identity, gens: GenerationsDir, chain: seq<Generation>) {
    && chain != [] && Complete(chain[0]) && Settled(gens, DirName(chain[0]), Item(Folder, chain[0], true))
    && if |chain| == 1 then IsRoot(chain[0].manifest.value)
       else
         && Held(seals, id, gens, chain[1..])
         && IsParent(seals, id, chain[0].manifest.value, chain[1].manifest.value)
  }

  function Top(chain: seq<Generation>): Manifest
    requires chain != [] && Complete(chain[0])
  {
    chain[0].manifest.value
  }

  /** The head belongs to this store. */
  predicate Owned(seals: Seals, id: Identity, gens: GenerationsDir, chain: seq<Generation>) {
    Held(seals, id, gens, chain) && ValidManifest(seals, Top(chain)) && Top(chain).id == id
  }

  lemma {:induction false} HeldHasLineage(seals: Seals, id: Identity, gens: GenerationsDir, chain: seq<Generation>)
    requires Held(seals, id, gens, chain)
    ensures HasLineage(seals, id, gens, Top(chain))
  {
    if |chain| == 1 {
      assert Lineage(seals, id, gens, [Top(chain)]);
    } else {
      HeldHasLineage(seals, id, gens, chain[1..]);
      ParentHasLineage(seals, id, gens, Top(chain), Top(chain[1..]));
    }
  }

  /** Names other than staging directories keep what they durably hold. */
  ghost predicate KeepsSettled(a: GenerationsDir, b: GenerationsDir) {
    forall name, item :: !IsStageName(name) && Settled(a, name, item) ==> Settled(b, name, item)
  }

  lemma DirNameIsNoStage(g: Generation)
    requires Complete(g)
    ensures !IsStageName(DirName(g))
  {
    GenerationNameExact(DirName(g), g.manifest.value.generation);
  }

  lemma {:induction false} HeldKept(seals: Seals, id: Identity, a: GenerationsDir, b: GenerationsDir,
                                    chain: seq<Generation>)
    requires Held(seals, id, a, chain) && KeepsSettled(a, b)
    ensures Held(seals, id, b, chain)
  {
    DirNameIsNoStage(chain[0]);
    if |chain| > 1 {
      HeldKept(seals, id, a, b, chain[1..]);
    }
  }

  /** A directory shape that reopening accepts, now and after any crash. */
  ghost predicate Housed(gens: GenerationsDir) {
    forall name ::
      && Now(gens, name) in Candidates(gens, name)
      && forall c :: c in Candidates(gens, name) && c.Some? ==> EntryAccepted(name, c.value.kind)
  }

  ghost predicate GensStep(a: GenerationsDir, b: GenerationsDir) {
    Housed(b) && KeepsSettled(a, b)
  }

  // ---------- the pointer ----------

  const GENERATIONS_ENTRY: Item<Option<Pointer>> := Item(Folder, None, true)

  function PointerItem(seals: Seals, m: Manifest): Item<Option<Pointer>> {
    Item(Regular, Some(PointerTo(seals, m)), true)
  }

  ghost predicate PointsAt(seals: Seals, c: Option<Item<Option<Pointer>>>, chain: seq<Generation>) {
    chain != [] && Complete(chain[0]) && c == Some(PointerItem(seals, Top(chain)))
  }

  ghost predicate PointsInto(seals: Seals, c: Option<Item<Option<Pointer>>>, chains: set<seq<Generation>>) {
    exists chain :: chain in chains && PointsAt(seals, c, chain)
  }

  /** The pointer, now or after a crash, names one of `chains`. */
  ghost predicate Within(seals: Seals, work: WorkDir, chains: set<seq<Generation>>) {
    && Settled(work, GENERATIONS_DIR, GENERATIONS_ENTRY) && Coherent(work)
    && forall c :: c in Candidates(work, ACTIVE_FILE) ==> PointsInto(seals, c, chains)
  }

  ghost predicate AllOwned(seals: Seals, id: Identity, gens: GenerationsDir, chains: set<seq<Generation>>) {
    forall chain :: chain in chains ==> Owned(seals, id, gens, chain)
  }

  lemma AllOwnedKept(seals: Seals, id: Identity, a: GenerationsDir, b: GenerationsDir, chains: set<seq<Generation>>)
    requires AllOwned(seals, id, a, chains) && KeepsSettled(a, b)
    ensures AllOwned(seals, id, b, chains)
  {
    forall chain | chain in chains ensures Owned(seals, id, b, chain) {
      HeldKept(seals, id, a, b, chain);
    }
  }

  /** Whatever pointer a crash leaves, it names one of `chains`, all of them durable. */
  ghost predicate Pointed(seals: Seals, id: Identity, v: Volume, chains: set<seq<Generation>>) {
    Housed(v.gens) && AllOwned(seals, id, v.gens, chains) && Within(seals, v.work, chains)
  }

  ghost predicate Shown(seals: Seals, v: Volume, chain: seq<Generation>) {
    PointsAt(seals, Now(v.work, ACTIVE_FILE), chain)
  }

  /** Reopening accepts the volume as exactly this complete generation and lineage. */
  ghost predicate OpensAs(seals: Seals, id: Identity, v: Volume, chain: seq<Generation>) {
    Held(seals, id, v.gens, chain) && Opens(seals, id, v, Top(chain))
  }

  lemma ShownOpens(seals: Seals, id: Identity, v: Volume, chains: set<seq<Generation>>, chain: seq<Generation>)
    requires Pointed(seals, id, v, chains) && chain in chains && Shown(seals, v, chain)
    ensures OpensAs(seals, id, v, chain)
  {
    HeldHasLineage(seals, id, v.gens, chain);
    assert Settled(v.gens, DirName(chain[0]), Item(Folder, chain[0], true));
    forall name | Now(v.gens, name).Some? ensures EntryAccepted(name, Now(v.gens, name).value.kind) {
      assert Now(v.gens, name) in Candidates(v.gens, name);
    }
  }

  ghost predicate CrashVolume(v: Volume, crashed: Volume) {
    CrashImage(v.work, crashed.work) && CrashImage(v.gens, crashed.gens)
  }

  lemma CrashGens(a: GenerationsDir, b: GenerationsDir)
    requires Housed(a) && CrashImage(a, b)
    ensures GensStep(a, b)
  {
    forall name
      ensures Now(b, name) in Candidates(b, name)
      ensures forall c :: c in Candidates(b, name) && c.Some? ==> EntryAccepted(name, c.value.kind)
    {
      assert SlotSurvives(a, b, name);
    }
    forall name, item | !IsStageName(name) && Settled(a, name, item) ensures Settled(b, name, item) {
      SettledSurvives(a, b, name, item);
    }
  }

  lemma CrashPointer(seals: Seals, a: WorkDir, b: WorkDir,
                     chains: set<seq<Generation>>) returns (chain: seq<Generation>)
    requires Within(seals, a, chains) && CrashImage(a, b)
    ensures chain in chains && Within(seals, b, {chain}) && PointsAt(seals, Now(b, ACTIVE_FILE), chain)
  {
    SettledSurvives(a, b, GENERATIONS_DIR, GENERATIONS_ENTRY);
    CrashCoherent(a, b);
    assert SlotSurvives(a, b, ACTIVE_FILE);
    var c :| c in Candidates(a, ACTIVE_FILE) && Survives(c, Now(b, ACTIVE_FILE));
    assert PointsInto(seals, c, chains);
    chain :| chain in chains && PointsAt(seals, c, chain);
    assert chain in {chain};
  }

  /** A crash leaves a volume that opens as one of the chains the pointer could name,
      and then the pointer can name no other. */
  lemma CrashOpens(seals: Seals, id: Identity, v: Volume, chains: set<seq<Generation>>, crashed: Volume)
    returns (chain: seq<Generation>)
    requires Pointed(seals, id, v, chains) && CrashVolume(v, crashed)
    ensures chain in chains && Pointed(seals, id, crashed, {chain})
    ensures Shown(seals, crashed, chain) && OpensAs(seals, id, crashed, chain)
  {
    chain := CrashPointer(seals, v.work, crashed.work, chains);
    CrashGens(v.gens, crashed.gens);
    AllOwnedKept(seals, id, v.gens, crashed.gens, chains);
    ShownOpens(seals, id, crashed, {chain}, chain);
  }

  // ---------- one publication ----------

  /** A staged directory about to be published; `work` is its pointer staging file. */
  datatype Stage = Stage(name: string, generation: Word64, content: Generation, pointer: string)

  ghost predicate AboveTaken(gens: GenerationsDir, generation: nat) {
    forall g: nat :: Taken(gens, g) ==> g < generation
  }

  ghost predicate Staged(v: Volume, stage: Stage) {
    && IsStageName(stage.name) && AboveTaken(v.gens, stage.generation)
    && stage.content.repo.Some? && stage.content.journal.Some?
    && stage.pointer != ACTIVE_FILE && stage.pointer != GENERATIONS_DIR
  }

  function Full(stage: Stage, m: Manifest): (g: Generation)
    ensures g.manifest == Some(m)
  {
    stage.content.(manifest := Some(m))
  }

  /** The four states of the generations directory: manifest written, tree synced,
      directory renamed, parent synced. */
  function GensStates(gens: GenerationsDir, stage: Stage, m: Manifest): (states: seq<GenerationsDir>)
    ensures |states| == 4
  {
    var written := Put(gens, stage.name, Some(Item(Folder, Full(stage, m), false)));
    var synced := Put(written, stage.name, Some(Item(Folder, Full(stage, m), true)));
    var renamed := Rename(synced, stage.name, GenerationName(stage.generation));
    [written, synced, renamed, SyncDirectory(renamed)]
  }

  /** The five states of the work directory: staging file created, written and synced,
      renamed over the active pointer, directory synced. */
  function WorkStates(work: WorkDir, staging: string, p: Pointer): (states: seq<WorkDir>)
    ensures |states| == 5
  {
    var created := Put(work, staging, Some(Item(Regular, None, false)));
    var written := Put(created, staging, Some(Item(Regular, Some(p), false)));
    var synced := Put(written, staging, Some(Item(Regular, Some(p), true)));
    var switched := Rename(synced, staging, ACTIVE_FILE);
    [created, written, synced, switched, SyncDirectory(switched)]
  }

  const STEPS := 9
  /** The number of completed steps from which the pointer is switched. */
  const SWITCHED := 8

  /** The volume after the first `done` steps. */
  function After(seals: Seals, v: Volume, stage: Stage, m: Manifest, done: nat): Volume
    requires done <= STEPS
  {
    if done == 0 then v
    else if done <= 4 then Volume(v.work, GensStates(v.gens, stage, m)[done - 1])
    else Volume(WorkStates(v.work, stage.pointer, PointerTo(seals, m))[done - 5], GensStates(v.gens, stage, m)[3])
  }

  /** What the caller is told when only `done` steps complete. */
  function Outcome(done: nat): Result<(), GenerationError> {
    if done == STEPS then Ok(()) else if done == SWITCHED then Err(OutcomeUnknown) else Err(Io)
  }

  datatype GenerationError = Corrupt | Io | OutcomeUnknown

  function ManifestFor(seals: Seals, id: Identity, active: Manifest, stage: Stage, checkpoint: Checkpoint)
    : Option<Manifest>
  {
    NewManifest(seals, id, stage.generation, Some(Parent(active.generation, active.digest)), checkpoint)
  }

  lemma TakenIsBelow(gens: GenerationsDir, generation: nat, taken: Word64)
    requires AboveTaken(gens, generation) && Now(gens, GenerationName(taken)).Some?
    ensures taken < generation
  {
    assert Taken(gens, taken);
  }

  lemma FinalIsFree(gens: GenerationsDir, stage: Stage)
    requires AboveTaken(gens, stage.generation)
    ensures Now(gens, GenerationName(stage.generation)).None?
    ensures !IsStageName(GenerationName(stage.generation))
    ensures EntryAccepted(GenerationName(stage.generation), Folder)
  {
    GenerationNameExact(GenerationName(stage.generation), stage.generation);
    if Now(gens, GenerationName(stage.generation)).Some? {
      TakenIsBelow(gens, stage.generation, stage.generation);
    }
  }

  lemma StagePutStep(gens: GenerationsDir, name: string, item: Item<Generation>)
    requires Housed(gens) && IsStageName(name) && item.kind == Folder
    ensures GensStep(gens, Put(gens, name, Some(item)))
  {
  }

  lemma RenameStep(gens: GenerationsDir, name: string, target: string, item: Item<Generation>)
    requires Housed(gens) && IsStageName(name) && !IsStageName(target) && EntryAccepted(target, Folder)
    requires Now(gens, name) == Some(item) && item.kind == Folder && Now(gens, target).None?
    ensures GensStep(gens, Rename(gens, name, target))
  {
    assert forall x :: !Settled(gens, target, x);
    assert Candidates(Rename(gens, name, target), name) == Candidates(gens, name) + {None};
  }

  lemma SyncGensStep(gens: GenerationsDir)
    requires Housed(gens)
    ensures GensStep(gens, SyncDirectory(gens))
  {
    assert forall name :: Now(gens, name) in Candidates(gens, name);
  }

  /** Every state of the generations directory keeps what was durable, and the last
      one durably holds the new generation. */
  lemma GensStatesStep(gens: GenerationsDir, stage: Stage, m: Manifest)
    requires Housed(gens) && IsStageName(stage.name) && AboveTaken(gens, stage.generation)
    ensures forall i :: 0 <= i < 4 ==> GensStep(gens, GensStates(gens, stage, m)[i])
    ensures Settled(GensStates(gens, stage, m)[3], GenerationName(stage.generation), Item(Folder, Full(stage, m), true))
  {
    var final := GenerationName(stage.generation);
    FinalIsFree(gens, stage);
    var item := Item(Folder, Full(stage, m), true);
    var states := GensStates(gens, stage, m);
    StagePutStep(gens, stage.name, Item(Folder, Full(stage, m), false));
    StagePutStep(states[0], stage.name, item);
    RenameStep(states[1], stage.name, final, item);
    SyncGensStep(states[2]);
  }

  /** The generations directory stays in place throughout. */
  lemma WorkStatesSettled(work: WorkDir, staging: string, p: Pointer)
    requires staging != ACTIVE_FILE && staging != GENERATIONS_DIR
    requires Settled(work, GENERATIONS_DIR, GENERATIONS_ENTRY)
    ensures forall s :: s in WorkStates(work, staging, p) ==> Settled(s, GENERATIONS_DIR, GENERATIONS_ENTRY)
  {
    assert ACTIVE_FILE != GENERATIONS_DIR by { assert ACTIVE_FILE[0] != GENERATIONS_DIR[0]; }
  }

  /** Before the switch the pointer is untouched; the switch adds one candidate; the
      final sync leaves it alone. */
  lemma WorkStatesStep(work: WorkDir, staging: string, p: Pointer)
    requires staging != ACTIVE_FILE
    ensures var states := WorkStates(work, staging, p);
      var item := Some(Item(Regular, Some(p), true));
      && (forall i :: 0 <= i < 3 ==>
            Now(states[i], ACTIVE_FILE) == Now(work, ACTIVE_FILE) &&
            Candidates(states[i], ACTIVE_FILE) == Candidates(work, ACTIVE_FILE))
      && Now(states[3], ACTIVE_FILE) == item
        && Candidates(states[3], ACTIVE_FILE) == Candidates(work, ACTIVE_FILE) + {item}
      && Now(states[4], ACTIVE_FILE) == item && Candidates(states[4], ACTIVE_FILE) == {item}
  {
  }

  lemma WorkStatesCoherent(work: WorkDir, staging: string, p: Pointer)
    requires Coherent(work)
    ensures forall i :: 0 <= i < 5 ==> Coherent(WorkStates(work, staging, p)[i])
  {
    var item := Some(Item(Regular, Some(p), true));
    var states := WorkStates(work, staging, p);
    PutCoherent(work, staging, Some(Item(Regular, None, false)));
    PutCoherent(states[0], staging, Some(Item(Regular, Some(p), false)));
    PutCoherent(states[1], staging, item);
    PutCoherent(states[2], ACTIVE_FILE, Now(states[2], staging));
    PutCoherent(Put(states[2], ACTIVE_FILE, Now(states[2], staging)), staging, None);
  }

  lemma NextIsOwned(seals: Seals, id: Identity, v: Volume, prior: seq<Generation>, stage: Stage, m: Manifest,
                    gens: GenerationsDir)
    requires Owned(seals, id, v.gens, prior) && Staged(v, stage) && KeepsSettled(v.gens, gens)
    requires ValidManifest(seals, m) && m.id == id && m.generation == stage.generation
    requires m.parent == Some(Parent(Top(prior).generation, Top(prior).digest))
    requires Settled(gens, GenerationName(stage.generation), Item(Folder, Full(stage, m), true))
    ensures Owned(seals, id, gens, [Full(stage, m)] + prior)
  {
    TakenIsBelow(v.gens, stage.generation, Top(prior).generation);
    HeldKept(seals, id, v.gens, gens, prior);
    var next := [Full(stage, m)] + prior;
    assert next[1..] == prior && next[1] == prior[0];
  }

  /** The publication runs from a volume whose visible pointer names `prior`. */
  ghost predicate Publishes(seals: Seals, id: Identity, v: Volume, chains: set<seq<Generation>>, prior: seq<Generation>,
                            stage: Stage, m: Manifest) {
    && Pointed(seals, id, v, chains) && prior in chains && Shown(seals, v, prior) && Staged(v, stage)
    && ValidManifest(seals, m) && m.id == id && m.generation == stage.generation
    && m.parent == Some(Parent(Top(prior).generation, Top(prior).digest))
  }

  lemma WorkBeforeSwitch(seals: Seals, work: WorkDir, chains: set<seq<Generation>>, staging: string, p: Pointer, i: nat)
    requires Within(seals, work, chains) && staging != ACTIVE_FILE && staging != GENERATIONS_DIR && i < 3
    ensures Within(seals, WorkStates(work, staging, p)[i], chains)
    ensures Now(WorkStates(work, staging, p)[i], ACTIVE_FILE) == Now(work, ACTIVE_FILE)
  {
    WorkStatesCoherent(work, staging, p);
    WorkStatesSettled(work, staging, p);
    WorkStatesStep(work, staging, p);
  }

  lemma WorkAfterSwitch(seals: Seals, work: WorkDir, chains: set<seq<Generation>>, staging: string,
                        next: seq<Generation>)
    requires Within(seals, work, chains) && staging != ACTIVE_FILE && staging != GENERATIONS_DIR
    requires next != [] && Complete(next[0])
    ensures var states := WorkStates(work, staging, PointerTo(seals, Top(next)));
      && Within(seals, states[3], chains + {next}) && PointsAt(seals, Now(states[3], ACTIVE_FILE), next)
      && Within(seals, states[4], {next}) && PointsAt(seals, Now(states[4], ACTIVE_FILE), next)
  {
    var p := PointerTo(seals, Top(next));
    var switched := WorkStates(work, staging, p)[3];
    WorkStatesCoherent(work, staging, p);
    WorkStatesSettled(work, staging, p);
    WorkStatesStep(work, staging, p);
    assert next in chains + {next} && next in {next};
    forall c | c in Candidates(switched, ACTIVE_FILE) ensures PointsInto(seals, c, chains + {next}) {
      if c in Candidates(work, ACTIVE_FILE) {
        var chain :| chain in chains && PointsAt(seals, c, chain);
        assert chain in chains + {next};
      }
    }
  }

  lemma GensAfter(seals: Seals, id: Identity, gens: GenerationsDir, chains: set<seq<Generation>>,
                  stage: Stage, m: Manifest, i: nat)
    requires Housed(gens) && AllOwned(seals, id, gens, chains)
    requires IsStageName(stage.name) && AboveTaken(gens, stage.generation) && i < 4
    ensures var after := GensStates(gens, stage, m)[i];
      Housed(after) && AllOwned(seals, id, after, chains)
  {
    var after := GensStates(gens, stage, m)[i];
    GensStatesStep(gens, stage, m);
    assert GensStep(gens, after);
    AllOwnedKept(seals, id, gens, after, chains);
  }

  lemma AfterGens(seals: Seals, id: Identity, v: Volume, chains: set<seq<Generation>>, stage: Stage, m: Manifest,
                  i: nat)
    requires Pointed(seals, id, v, chains) && Staged(v, stage) && i < 4
    ensures Pointed(seals, id, Volume(v.work, GensStates(v.gens, stage, m)[i]), chains)
  {
    GensAfter(seals, id, v.gens, chains, stage, m, i);
  }

  lemma AfterWork(seals: Seals, id: Identity, v: Volume, chains: set<seq<Generation>>, staging: string, p: Pointer,
                  i: nat)
    requires Pointed(seals, id, v, chains) && staging != ACTIVE_FILE && staging != GENERATIONS_DIR && i < 3
    ensures Pointed(seals, id, Volume(WorkStates(v.work, staging, p)[i], v.gens), chains)
    ensures Now(WorkStates(v.work, staging, p)[i], ACTIVE_FILE) == Now(v.work, ACTIVE_FILE)
  {
    WorkBeforeSwitch(seals, v.work, chains, staging, p, i);
  }

  /** Up to the switch nothing the pointer could name changes. */
  lemma BeforeSwitch(seals: Seals, id: Identity, v: Volume, chains: set<seq<Generation>>, prior: seq<Generation>,
                     stage: Stage, m: Manifest, done: nat)
    requires Publishes(seals, id, v, chains, prior, stage, m) && done < SWITCHED
    ensures Pointed(seals, id, After(seals, v, stage, m, done), chains)
    ensures Shown(seals, After(seals, v, stage, m, done), prior)
  {
    if 0 < done {
      AfterGens(seals, id, v, chains, stage, m, if done <= 4 then done - 1 else 3);
      if done > 4 {
        var built := Volume(v.work, GensStates(v.gens, stage, m)[3]);
        AfterWork(seals, id, built, chains, stage.pointer, PointerTo(seals, m), done - 5);
      }
    }
  }

  lemma OwnedAfterSync(seals: Seals, id: Identity, v: Volume, chains: set<seq<Generation>>, prior: seq<Generation>,
                       stage: Stage, m: Manifest, gens: GenerationsDir)
    requires Publishes(seals, id, v, chains, prior, stage, m) && gens == GensStates(v.gens, stage, m)[3]
    ensures Housed(gens) && AllOwned(seals, id, gens, chains + {[Full(stage, m)] + prior})
  {
    var next := [Full(stage, m)] + prior;
    GensStatesStep(v.gens, stage, m);
    assert GensStep(v.gens, gens);
    AllOwnedKept(seals, id, v.gens, gens, chains);
    NextIsOwned(seals, id, v, prior, stage, m, gens);
    forall chain | chain in chains + {next} ensures Owned(seals, id, gens, chain) {
      assert chain in chains || chain == next;
    }
  }

  lemma AfterIs(seals: Seals, v: Volume, stage: Stage, m: Manifest)
    ensures var work := WorkStates(v.work, stage.pointer, PointerTo(seals, m));
      var gens := GensStates(v.gens, stage, m)[3];
      After(seals, v, stage, m, SWITCHED) == Volume(work[3], gens)
        && After(seals, v, stage, m, STEPS) == Volume(work[4], gens)
  {
  }

  /** The switch adds the next generation, whose lineage is durable by then; the final
      sync leaves it alone. */
  lemma AfterSwitch(seals: Seals, id: Identity, v: Volume, chains: set<seq<Generation>>, prior: seq<Generation>,
                    stage: Stage, m: Manifest, next: seq<Generation>, switched: Volume, settled: Volume)
    requires Publishes(seals, id, v, chains, prior, stage, m) && next == [Full(stage, m)] + prior
    requires switched == After(seals, v, stage, m, SWITCHED) && settled == After(seals, v, stage, m, STEPS)
    ensures Pointed(seals, id, switched, chains + {next}) && Shown(seals, switched, next)
    ensures Pointed(seals, id, settled, {next}) && Shown(seals, settled, next)
  {
    OwnedAfterSync(seals, id, v, chains, prior, stage, m, switched.gens);
    AfterIs(seals, v, stage, m);
    WorkAfterSwitch(seals, v.work, chains, stage.pointer, next);
  }

  /** Where a publication stands after `done` steps: what the pointer can name, and does. */
  ghost predicate Position(seals: Seals, id: Identity, s: Volume, chains: set<seq<Generation>>,
                           prior: seq<Generation>, next: seq<Generation>, done: nat) {
    if done < SWITCHED then Pointed(seals, id, s, chains) && Shown(seals, s, prior)
    else
      && Shown(seals, s, next)
      && Pointed(seals, id, s, if done == SWITCHED then chains + {next} else {next})
  }

  lemma AfterStands(seals: Seals, id: Identity, v: Volume, chains: set<seq<Generation>>, prior: seq<Generation>,
                    stage: Stage, m: Manifest, done: nat)
    requires Publishes(seals, id, v, chains, prior, stage, m) && done <= STEPS
    ensures Position(seals, id, After(seals, v, stage, m, done), chains, prior, [Full(stage, m)] + prior, done)
  {
    if done < SWITCHED {
      BeforeSwitch(seals, id, v, chains, prior, stage, m, done);
    } else {
      LateStands(seals, id, v, chains, prior, stage, m, [Full(stage, m)] + prior, After(seals, v, stage, m, SWITCHED),
                 After(seals, v, stage, m, STEPS), done);
    }
  }

  lemma LateStands(seals: Seals, id: Identity, v: Volume, chains: set<seq<Generation>>, prior: seq<Generation>,
                   stage: Stage, m: Manifest, next: seq<Generation>, switched: Volume, settled: Volume, done: nat)
    requires Publishes(seals, id, v, chains, prior, stage, m) && next == [Full(stage, m)] + prior
    requires switched == After(seals, v, stage, m, SWITCHED) && settled == After(seals, v, stage, m, STEPS)
    requires SWITCHED <= done <= STEPS
    ensures Position(seals, id, if done == SWITCHED then switched else settled, chains, prior, next, done)
  {
    AfterSwitch(seals, id, v, chains, prior, stage, m, next, switched, settled);
  }
}
