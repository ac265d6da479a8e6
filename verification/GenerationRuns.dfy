/** Crash atomicity of publication, and what every run of the store keeps. */
module GenerationRuns {
  import opened Framing
  import opened Names
  import opened Durability
  import opened Journal
  import opened Generations
  import opened GenerationPublish
  import opened Runs

  function NextChain(stage: Stage, m: Manifest, prior: seq<Generation>): seq<Generation> {
    [Full(stage, m)] + prior
  }

  /** The crashed volume opens as exactly the prior or exactly the next generation. */
  ghost predicate PriorOrNext(seals: Seals, id: Identity, crashed: Volume, prior: seq<Generation>,
                              next: seq<Generation>) {
    OpensAs(seals, id, crashed, prior) || OpensAs(seals, id, crashed, next)
  }

  lemma CrashAt(seals: Seals, id: Identity, s: Volume, prior: seq<Generation>, next: seq<Generation>,
                done: nat, crashed: Volume)
    requires Position(seals, id, s, {prior}, prior, next, done) && CrashVolume(s, crashed)
    ensures PriorOrNext(seals, id, crashed, prior, next)
    ensures done < SWITCHED ==> OpensAs(seals, id, crashed, prior)
    ensures done > SWITCHED ==> OpensAs(seals, id, crashed, next)
  {
    var chains := if done < SWITCHED then {prior} else if done == SWITCHED then {prior} + {next} else {next};
    var chain := CrashOpens(seals, id, s, chains, crashed);
    assert chain == prior || chain == next;
  }

  /** Crash atomicity: wherever the publication stops, and whatever unsynced entries
      the crash loses, reopening gives the prior or the next complete generation.  A
      stop that is reported as an I/O error leaves the prior one, a completed
      publication the next one; only an unknown outcome leaves the choice to the crash. */
  lemma CrashAtomicity(seals: Seals, id: Identity, v: Volume, prior: seq<Generation>, stage: Stage, m: Manifest,
                       done: nat, crashed: Volume)
    requires Publishes(seals, id, v, {prior}, prior, stage, m)
    requires done <= STEPS && CrashVolume(After(seals, v, stage, m, done), crashed)
    ensures PriorOrNext(seals, id, crashed, prior, NextChain(stage, m, prior))
    ensures Outcome(done) == Err(Io) ==> OpensAs(seals, id, crashed, prior)
    ensures Outcome(done) == Ok(()) ==> OpensAs(seals, id, crashed, NextChain(stage, m, prior))
  {
    AfterStands(seals, id, v, {prior}, prior, stage, m, done);
    CrashAt(seals, id, After(seals, v, stage, m, done), prior, NextChain(stage, m, prior), done, crashed);
  }

  /** Without a crash the store reopens as the prior generation up to the switch and as
      the next one from then on. */
  lemma ReopensWithoutCrash(seals: Seals, id: Identity, v: Volume, chains: set<seq<Generation>>, prior: seq<Generation>,
                            stage: Stage, m: Manifest, done: nat)
    requires Publishes(seals, id, v, chains, prior, stage, m) && done <= STEPS
    ensures var s := After(seals, v, stage, m, done);
      OpensAs(seals, id, s, if done < SWITCHED then prior else NextChain(stage, m, prior))
  {
    AfterStands(seals, id, v, chains, prior, stage, m, done);
    OpensAt(seals, id, After(seals, v, stage, m, done), chains, prior, NextChain(stage, m, prior), done);
  }

  lemma OpensAt(seals: Seals, id: Identity, s: Volume, chains: set<seq<Generation>>, prior: seq<Generation>,
                next: seq<Generation>, done: nat)
    requires Position(seals, id, s, chains, prior, next, done) && prior in chains
    ensures OpensAs(seals, id, s, if done < SWITCHED then prior else next)
  {
    if done < SWITCHED {
      ShownOpens(seals, id, s, chains, prior);
    } else {
      ShownOpens(seals, id, s, if done == SWITCHED then chains + {next} else {next}, next);
    }
  }

  // ---------- exactly when publication is crash atomic ----------

  ghost predicate AtomicFrom(seals: Seals, id: Identity, v: Volume, prior: seq<Generation>, stage: Stage, m: Manifest) {
    forall done, crashed :: 0 <= done <= STEPS && CrashVolume(After(seals, v, stage, m, done), crashed) ==>
      PriorOrNext(seals, id, crashed, prior, NextChain(stage, m, prior))
  }

  /** The pointer on disk is certain: a crash now leaves what is visible. */
  predicate PointerCertain(v: Volume) {
    Candidates(v.work, ACTIVE_FILE) == {Now(v.work, ACTIVE_FILE)}
  }

  lemma CertainNarrows(seals: Seals, id: Identity, v: Volume, chains: set<seq<Generation>>, prior: seq<Generation>)
    requires Pointed(seals, id, v, chains) && prior in chains && Shown(seals, v, prior) && PointerCertain(v)
    ensures Pointed(seals, id, v, {prior})
  {
    assert prior in {prior};
    assert AllOwned(seals, id, v.gens, {prior});
    forall c | c in Candidates(v.work, ACTIVE_FILE) ensures PointsInto(seals, c, {prior}) {
      assert PointsAt(seals, c, prior);
    }
  }

  /** Some crash of a volume makes any pointer candidate the active one. */
  lemma CandidateCanOpen(seals: Seals, id: Identity, v: Volume, chains: set<seq<Generation>>, other: seq<Generation>)
    returns (crashed: Volume)
    requires Pointed(seals, id, v, chains) && other in chains && Complete(other[0])
    requires Some(PointerItem(seals, Top(other))) in Candidates(v.work, ACTIVE_FILE)
    ensures CrashVolume(v, crashed) && Opens(seals, id, crashed, Top(other))
  {
    var item := Some(PointerItem(seals, Top(other)));
    crashed := Volume(CrashWith(v.work, ACTIVE_FILE, item), CrashWith(v.gens, "", Now(v.gens, "")));
    CrashWithIsImage(v.work, ACTIVE_FILE, item);
    assert Coherent(v.gens);
    CrashWithIsImage(v.gens, "", Now(v.gens, ""));
    var chain := CrashOpens(seals, id, v, chains, crashed);
    SamePointerSameManifest(seals, id, v.gens, chain, other);
  }

  /** Durable chains under one pointer have one head: the generation's directory is one. */
  lemma SamePointerSameManifest(seals: Seals, id: Identity, gens: GenerationsDir, a: seq<Generation>,
                                b: seq<Generation>)
    requires Held(seals, id, gens, a) && Held(seals, id, gens, b)
    requires PointerItem(seals, Top(a)) == PointerItem(seals, Top(b))
    ensures Top(a) == Top(b)
  {
    assert Settled(gens, DirName(a[0]), Item(Folder, a[0], true));
    assert Settled(gens, DirName(b[0]), Item(Folder, b[0], true));
  }

  lemma OpensOnce(seals: Seals, id: Identity, v: Volume, a: Manifest, b: Manifest)
    requires Opens(seals, id, v, a) && Opens(seals, id, v, b)
    ensures a == b
  {
  }

  /** A publication is crash atomic exactly when it starts from a certain pointer. */
  lemma AtomicExactly(seals: Seals, id: Identity, v: Volume, chains: set<seq<Generation>>, prior: seq<Generation>,
                      stage: Stage, m: Manifest)
    requires Publishes(seals, id, v, chains, prior, stage, m)
    ensures AtomicFrom(seals, id, v, prior, stage, m) <==> PointerCertain(v)
  {
    if PointerCertain(v) {
      CertainNarrows(seals, id, v, chains, prior);
      forall done, crashed | 0 <= done <= STEPS && CrashVolume(After(seals, v, stage, m, done), crashed)
        ensures PriorOrNext(seals, id, crashed, prior, NextChain(stage, m, prior))
      {
        CrashAtomicity(seals, id, v, prior, stage, m, done, crashed);
      }
    } else {
      var c :| c in Candidates(v.work, ACTIVE_FILE) && c != Now(v.work, ACTIVE_FILE);
      assert PointsInto(seals, c, chains);
      var other :| other in chains && PointsAt(seals, c, other);
      UncertainIsNotAtomic(seals, id, v, chains, prior, stage, m, other);
    }
  }

  lemma UncertainIsNotAtomic(seals: Seals, id: Identity, v: Volume, chains: set<seq<Generation>>,
                             prior: seq<Generation>,
                             stage: Stage, m: Manifest, other: seq<Generation>)
    requires Publishes(seals, id, v, chains, prior, stage, m) && other in chains && Complete(other[0])
    requires Some(PointerItem(seals, Top(other))) in Candidates(v.work, ACTIVE_FILE)
    requires Top(other) != Top(prior)
    ensures !AtomicFrom(seals, id, v, prior, stage, m)
  {
    var crashed := CandidateCanOpen(seals, id, v, chains, other);
    var next := NextChain(stage, m, prior);
    assert After(seals, v, stage, m, 0) == v;
    assert Top(other).generation < stage.generation by {
      assert Settled(v.gens, DirName(other[0]), Item(Folder, other[0], true));
      TakenIsBelow(v.gens, stage.generation, Top(other).generation);
    }
    assert !PriorOrNext(seals, id, crashed, prior, next);
  }

  /** An unknown outcome leaves the pointer uncertain: reopening without a crash shows the
      next generation, yet a crash after that can fall back to the prior one.  The next
      publication from there is therefore not crash atomic. */
  lemma UnknownOutcomeIsUncertain(seals: Seals, id: Identity, v: Volume, prior: seq<Generation>, stage: Stage,
                                  m: Manifest)
    requires Publishes(seals, id, v, {prior}, prior, stage, m)
    ensures var s := After(seals, v, stage, m, SWITCHED);
      && OpensAs(seals, id, s, NextChain(stage, m, prior)) && !PointerCertain(s)
      && exists crashed :: CrashVolume(s, crashed) && Opens(seals, id, crashed, Top(prior))
  {
    var s := After(seals, v, stage, m, SWITCHED);
    AfterStands(seals, id, v, {prior}, prior, stage, m, SWITCHED);
    ReopensWithoutCrash(seals, id, v, {prior}, prior, stage, m, SWITCHED);
    PriorRemains(seals, id, v, prior, stage, m);
    UncertainPosition(seals, id, s, prior, NextChain(stage, m, prior));
  }

  lemma PriorRemains(seals: Seals, id: Identity, v: Volume, prior: seq<Generation>, stage: Stage, m: Manifest)
    requires Publishes(seals, id, v, {prior}, prior, stage, m)
    ensures Some(PointerItem(seals, Top(prior))) in Candidates(After(seals, v, stage, m, SWITCHED).work, ACTIVE_FILE)
    ensures Top(prior).generation < m.generation
  {
    AfterIs(seals, v, stage, m);
    WorkStatesStep(v.work, stage.pointer, PointerTo(seals, m));
    assert Now(v.work, ACTIVE_FILE) in Candidates(v.work, ACTIVE_FILE);
    assert Settled(v.gens, DirName(prior[0]), Item(Folder, prior[0], true));
    TakenIsBelow(v.gens, stage.generation, Top(prior).generation);
  }

  lemma UncertainPosition(seals: Seals, id: Identity, s: Volume, prior: seq<Generation>, next: seq<Generation>)
    requires Position(seals, id, s, {prior}, prior, next, SWITCHED) && prior != [] && Complete(prior[0])
    requires Some(PointerItem(seals, Top(prior))) in Candidates(s.work, ACTIVE_FILE)
    requires Top(prior).generation < Top(next).generation
    ensures !PointerCertain(s)
    ensures exists crashed :: CrashVolume(s, crashed) && Opens(seals, id, crashed, Top(prior))
  {
    var crashed := CandidateCanOpen(seals, id, s, {prior} + {next}, prior);
  }

  // ---------- every run of the store ----------

  /** The volume, and the writer over it: its active manifest while a process holds one. */
  datatype Writer = Writer(v: Volume, active: Option<Manifest>, healthy: bool)

  datatype Event =
    | Staging(name: string, content: Generation)                        // build or edit a staged directory
    | Publishing(stage: Stage, checkpoint: Checkpoint, done: nat, reopens: bool)
    | Dying(stage: Stage, checkpoint: Checkpoint, done: nat)            // the process stops inside a publication
    | Crashing                                                          // the machine stops
    | Opening

  predicate CanWrite(s: Writer) {
    s.active.Some? && s.healthy
  }

  /** A writer may publish `stage`, and this is its manifest. */
  ghost predicate Prepared(seals: Seals, id: Identity, s: Writer, stage: Stage, checkpoint: Checkpoint, done: nat,
                           m: Manifest) {
    && CanWrite(s) && Staged(s.v, stage) && done <= STEPS
    && ManifestFor(seals, id, s.active.value, stage, checkpoint) == Some(m)
  }

  ghost predicate Next(seals: Seals, id: Identity, s: Writer, e: Event, t: Writer) {
    match e
    case Staging(name, content) =>
      && CanWrite(s) && IsStageName(name)
      && t == s.(v := Volume(s.v.work, Put(s.v.gens, name, Some(Item(Folder, content, false)))))
    case Publishing(stage, checkpoint, done, reopens) =>
      exists m :: Prepared(seals, id, s, stage, checkpoint, done, m)
        && t == Writer(After(seals, s.v, stage, m, done), if done == STEPS then Some(m) else s.active,
                       done < SWITCHED || (done == STEPS && reopens))
    case Dying(stage, checkpoint, done) =>
      exists m :: Prepared(seals, id, s, stage, checkpoint, done, m)
        && t == Writer(After(seals, s.v, stage, m, done), None, false)
    case Crashing =>
      CrashVolume(s.v, t.v) && t.active.None? && !t.healthy
    case Opening =>
      && t.v == s.v && t.healthy == t.active.Some?
      && (t.active.Some? ==> Opens(seals, id, s.v, t.active.value))
      && (t.active.None? ==> forall m :: !Opens(seals, id, s.v, m))
  }

  /** A prepared publication, however far it gets, is a step. */
  lemma PublishingIsStep(seals: Seals, id: Identity, s: Writer, stage: Stage, checkpoint: Checkpoint, done: nat,
                         reopens: bool, m: Manifest, t: Writer)
    requires Prepared(seals, id, s, stage, checkpoint, done, m)
    requires t == Writer(After(seals, s.v, stage, m, done), if done == STEPS then Some(m) else s.active,
                         done < SWITCHED || (done == STEPS && reopens))
    ensures Next(seals, id, s, Publishing(stage, checkpoint, done, reopens), t)
  {
  }

  ghost function Step(seals: Seals, id: Identity): (Writer, Event, Writer) -> bool {
    (s, e, t) => Next(seals, id, s, e, t)
  }

  ghost predicate Run(seals: Seals, id: Identity, events: seq<Event>, states: seq<Writer>) {
    IsRun(Step(seals, id), events, states)
  }

  ghost predicate Follows(seals: Seals, s: Writer, chains: set<seq<Generation>>) {
    CanWrite(s) ==> exists chain :: chain in chains && Shown(seals, s.v, chain) && Top(chain) == s.active.value
  }

  /** Whatever pointer the volume comes back with names one of `chains`, all of them durable, and
      a working writer extends one of them. */
  ghost predicate Tracks(seals: Seals, id: Identity, s: Writer, chains: set<seq<Generation>>) {
    Pointed(seals, id, s.v, chains) && Follows(seals, s, chains)
  }

  predicate Attempts(e: Event) {
    e.Publishing? || e.Dying?
  }

  /** The manifest of an attempt, and where it leaves the volume and the writer. */
  lemma AttemptManifest(seals: Seals, id: Identity, s: Writer, e: Event, t: Writer) returns (m: Manifest)
    requires Attempts(e) && Next(seals, id, s, e, t)
    ensures Prepared(seals, id, s, e.stage, e.checkpoint, e.done, m) && t.v == After(seals, s.v, e.stage, m, e.done)
    ensures CanWrite(t) ==> t.active == (if e.done == STEPS then Some(m) else s.active) && e.done != SWITCHED
  {
    if e.Publishing? {
      m :| Prepared(seals, id, s, e.stage, e.checkpoint, e.done, m)
        && t == Writer(After(seals, s.v, e.stage, m, e.done), if e.done == STEPS then Some(m) else s.active,
                       e.done < SWITCHED || (e.done == STEPS && e.reopens));
    } else {
      m :| Prepared(seals, id, s, e.stage, e.checkpoint, e.done, m)
        && t == Writer(After(seals, s.v, e.stage, m, e.done), None, false);
    }
  }

  /** `chain` is what this attempt adds to the chain that its writer extends. */
  ghost predicate Adds(seals: Seals, id: Identity, s: Writer, e: Event, chains: set<seq<Generation>>,
                       chain: seq<Generation>) {
    && Attempts(e) && chain != []
    && exists m :: Prepared(seals, id, s, e.stage, e.checkpoint, e.done, m) && chain[0] == Full(e.stage, m)
         && chain[1..] in chains && chain[1..] != [] && chain[1..][0].manifest == s.active
  }

  lemma StagingTracks(seals: Seals, id: Identity, s: Writer, e: Event, t: Writer, chains: set<seq<Generation>>)
    requires Tracks(seals, id, s, chains) && e.Staging? && Next(seals, id, s, e, t)
    ensures Tracks(seals, id, t, chains)
  {
    StagePutStep(s.v.gens, e.name, Item(Folder, e.content, false));
    AllOwnedKept(seals, id, s.v.gens, t.v.gens, chains);
  }

  lemma OpeningTracks(seals: Seals, id: Identity, s: Writer, t: Writer, chains: set<seq<Generation>>)
    requires Tracks(seals, id, s, chains) && Next(seals, id, s, Opening, t)
    ensures Tracks(seals, id, t, chains)
  {
    var chain := VisibleChain(seals, id, s.v, chains);
    OpensOnce(seals, id, s.v, Top(chain), t.active.value);
  }

  /** A pointed volume always opens, as the chain its visible pointer names. */
  lemma VisibleChain(seals: Seals, id: Identity, v: Volume,
                     chains: set<seq<Generation>>) returns (chain: seq<Generation>)
    requires Pointed(seals, id, v, chains)
    ensures chain in chains && Shown(seals, v, chain) && OpensAs(seals, id, v, chain)
  {
    var c := Now(v.work, ACTIVE_FILE);
    assert c in Candidates(v.work, ACTIVE_FILE);
    assert PointsInto(seals, c, chains);
    chain :| chain in chains && PointsAt(seals, c, chain);
    ShownOpens(seals, id, v, chains, chain);
  }

  lemma PositionTracks(seals: Seals, id: Identity, t: Writer, chains: set<seq<Generation>>, prior: seq<Generation>,
                       next: seq<Generation>, done: nat)
    returns (after: set<seq<Generation>>)
    requires Position(seals, id, t.v, chains, prior, next, done) && prior in chains && prior != [] && next != []
    requires Complete(next[0]) && Complete(prior[0])
    requires CanWrite(t) ==> t.active == Some(if done < SWITCHED then Top(prior) else Top(next))
    ensures Tracks(seals, id, t, after) && after == Nameable(chains, next, done)
  {
    after := Nameable(chains, next, done);
    assert (if done < SWITCHED then prior else next) in after;
  }

  /** What the pointer can name after `done` steps. */
  function Nameable(chains: set<seq<Generation>>, next: seq<Generation>, done: nat): set<seq<Generation>> {
    if done < SWITCHED then chains else if done == SWITCHED then chains + {next} else {next}
  }

  lemma AttemptTracks(seals: Seals, id: Identity, s: Writer, e: Event, t: Writer, chains: set<seq<Generation>>)
    returns (after: set<seq<Generation>>, next: seq<Generation>)
    requires Tracks(seals, id, s, chains) && Attempts(e) && Next(seals, id, s, e, t)
    ensures Tracks(seals, id, t, after) && after == Nameable(chains, next, e.done)
      && Adds(seals, id, s, e, chains, next)
  {
    var m := AttemptManifest(seals, id, s, e, t);
    after, next := PreparedTracks(seals, id, s, e, t, chains, m);
  }

  lemma PreparedTracks(seals: Seals, id: Identity, s: Writer, e: Event, t: Writer, chains: set<seq<Generation>>,
                       m: Manifest)
    returns (after: set<seq<Generation>>, next: seq<Generation>)
    requires Tracks(seals, id, s, chains) && Attempts(e)
    requires Prepared(seals, id, s, e.stage, e.checkpoint, e.done, m) && t.v == After(seals, s.v, e.stage, m, e.done)
    requires CanWrite(t) ==> t.active == (if e.done == STEPS then Some(m) else s.active) && e.done != SWITCHED
    ensures Tracks(seals, id, t, after) && after == Nameable(chains, next, e.done)
      && Adds(seals, id, s, e, chains, next)
  {
    var prior :| prior in chains && Shown(seals, s.v, prior) && Top(prior) == s.active.value;
    next := [Full(e.stage, m)] + prior;
    AddsNext(seals, id, s, e, chains, m, prior, next);
    after := PublishTracks(seals, id, s, t, chains, e.stage, e.checkpoint, e.done, m, prior, next);
  }

  lemma AddsNext(seals: Seals, id: Identity, s: Writer, e: Event, chains: set<seq<Generation>>, m: Manifest,
                 prior: seq<Generation>, next: seq<Generation>)
    requires Attempts(e) && Prepared(seals, id, s, e.stage, e.checkpoint, e.done, m) && prior in chains && prior != []
    requires prior[0].manifest == s.active && next == [Full(e.stage, m)] + prior
    ensures Adds(seals, id, s, e, chains, next)
  {
    assert next[1..] == prior;
  }

  lemma PublishTracks(seals: Seals, id: Identity, s: Writer, t: Writer, chains: set<seq<Generation>>, stage: Stage,
                      checkpoint: Checkpoint, done: nat, m: Manifest, prior: seq<Generation>, next: seq<Generation>)
    returns (after: set<seq<Generation>>)
    requires Tracks(seals, id, s, chains) && Prepared(seals, id, s, stage, checkpoint, done, m)
    requires prior in chains && Shown(seals, s.v, prior) && Top(prior) == s.active.value
    requires t.v == After(seals, s.v, stage, m, done) && next == [Full(stage, m)] + prior
    requires CanWrite(t) ==> t.active == (if done == STEPS then Some(m) else s.active) && done != SWITCHED
    ensures Tracks(seals, id, t, after) && after == Nameable(chains, next, done)
  {
    assert Publishes(seals, id, s.v, chains, prior, stage, m);
    AfterStands(seals, id, s.v, chains, prior, stage, m, done);
    after := PositionTracks(seals, id, t, chains, prior, next, done);
  }

  /** One event leaves the pointer with chains it could name before, or with what the event's own
      attempt added; a completed publication leaves only what it added. */
  lemma NextTracks(seals: Seals, id: Identity, s: Writer, e: Event, t: Writer, chains: set<seq<Generation>>)
    returns (after: set<seq<Generation>>, next: seq<Generation>)
    requires Tracks(seals, id, s, chains) && Next(seals, id, s, e, t)
    ensures Tracks(seals, id, t, after)
    ensures Attempts(e) ==> after == Nameable(chains, next, e.done) && Adds(seals, id, s, e, chains, next)
    ensures !Attempts(e) ==> after <= chains
  {
    after, next := chains, [];
    match e
    case Staging(_, _) => StagingTracks(seals, id, s, e, t, chains);
    case Opening => OpeningTracks(seals, id, s, t, chains);
    case Crashing =>
      var chain := CrashOpens(seals, id, s.v, chains, t.v);
      after := {chain};
    case Publishing(_, _, _, _) => after, next := AttemptTracks(seals, id, s, e, t, chains);
    case Dying(_, _, _) => after, next := AttemptTracks(seals, id, s, e, t, chains);
  }

  ghost predicate AllHave(chains: set<seq<Generation>>, g: Generation) {
    forall chain :: chain in chains ==> g in chain
  }

  /** Every pointer the volume could come back with has `g` in its durable lineage. */
  ghost predicate Keeps(seals: Seals, id: Identity, s: Writer, g: Generation) {
    exists chains :: Tracks(seals, id, s, chains) && AllHave(chains, g)
  }

  lemma NextKeeps(seals: Seals, id: Identity, s: Writer, e: Event, t: Writer, g: Generation)
    requires Keeps(seals, id, s, g) && Next(seals, id, s, e, t)
    ensures Keeps(seals, id, t, g)
  {
    var chains :| Tracks(seals, id, s, chains) && AllHave(chains, g);
    var after, next := NextTracks(seals, id, s, e, t, chains);
    if Attempts(e) {
      AddsOnto(seals, id, s, e, chains, next);
      NameableHave(chains, next, e.done, g);
    }
    KeptBy(seals, id, t, after, g);
  }

  lemma AddsOnto(seals: Seals, id: Identity, s: Writer, e: Event, chains: set<seq<Generation>>, next: seq<Generation>)
    requires Adds(seals, id, s, e, chains, next)
    ensures next != [] && next[1..] in chains
  {
  }

  lemma NameableHave(chains: set<seq<Generation>>, next: seq<Generation>, done: nat, g: Generation)
    requires next != [] && next[1..] in chains && AllHave(chains, g)
    ensures AllHave(Nameable(chains, next, done), g)
  {
    assert g in next[1..];
  }

  lemma KeptBy(seals: Seals, id: Identity, s: Writer, chains: set<seq<Generation>>, g: Generation)
    requires Tracks(seals, id, s, chains) && AllHave(chains, g)
    ensures Keeps(seals, id, s, g)
  {
  }

  /** A completed publication keeps its own generation. */
  lemma CompletedKeeps(seals: Seals, id: Identity, s: Writer, e: Event, t: Writer, g: Generation, m: Manifest)
    requires Keeps(seals, id, s, g) && Next(seals, id, s, e, t) && e.Publishing? && e.done == STEPS
    requires Prepared(seals, id, s, e.stage, e.checkpoint, STEPS, m)
    ensures Keeps(seals, id, t, Full(e.stage, m))
  {
    var chains :| Tracks(seals, id, s, chains) && AllHave(chains, g);
    var after, next := NextTracks(seals, id, s, e, t, chains);
    AddsOwn(seals, id, s, e, chains, next, m);
    KeptBy(seals, id, t, after, Full(e.stage, m));
  }

  lemma AddsOwn(seals: Seals, id: Identity, s: Writer, e: Event, chains: set<seq<Generation>>, next: seq<Generation>,
                m: Manifest)
    requires Adds(seals, id, s, e, chains, next) && Prepared(seals, id, s, e.stage, e.checkpoint, e.done, m)
    ensures AllHave(Nameable(chains, next, STEPS), Full(e.stage, m))
  {
    assert next[0] == Full(e.stage, m);
  }

  lemma RunKeeps(seals: Seals, id: Identity, events: seq<Event>, states: seq<Writer>, first: nat, last: nat,
                 g: Generation)
    requires Run(seals, id, events, states) && first <= last < |states| && Keeps(seals, id, states[first], g)
    ensures Keeps(seals, id, states[last], g)
  {
    forall s, e, t | Keeps(seals, id, s, g) && Step(seals, id)(s, e, t) ensures Keeps(seals, id, t, g) {
      NextKeeps(seals, id, s, e, t, g);
    }
    StaysTrue(Step(seals, id), s => Keeps(seals, id, s, g), events, states, first, last);
  }

  /** Reopening succeeds and yields `g` or a descendant of it, with contents unchanged. */
  ghost predicate OpensAtOrAfter(seals: Seals, id: Identity, v: Volume, g: Generation) {
    exists chain :: OpensAs(seals, id, v, chain) && g in chain
  }

  lemma KeepsOpens(seals: Seals, id: Identity, s: Writer, g: Generation)
    requires Keeps(seals, id, s, g)
    ensures OpensAtOrAfter(seals, id, s.v, g)
  {
    var chains :| Tracks(seals, id, s, chains) && AllHave(chains, g);
    var chain := VisibleChain(seals, id, s.v, chains);
  }

  /** Once a publication has returned success, the volume opens in every later state of
      every run as that very generation or a descendant of it, whatever failed
      publications, process deaths, crashes and reopenings lie between. */
  lemma AcknowledgedGenerationsPersist(seals: Seals, id: Identity, root: Generation, events: seq<Event>,
                                       states: seq<Writer>, at: nat, m: Manifest, later: nat)
    requires Run(seals, id, events, states) && Keeps(seals, id, states[0], root)
    requires at < later < |states| && events[at].Publishing? && events[at].done == STEPS
    requires Prepared(seals, id, states[at], events[at].stage, events[at].checkpoint, STEPS, m)
    ensures OpensAtOrAfter(seals, id, states[later].v, Full(events[at].stage, m))
  {
    CompletedStaysKept(seals, id, root, events, states, at, m, Full(events[at].stage, m), later);
    KeepsOpens(seals, id, states[later], Full(events[at].stage, m));
  }

  /** The event completes the publication of `g`. */
  ghost predicate Completes(seals: Seals, id: Identity, s: Writer, e: Event, m: Manifest, g: Generation) {
    && e.Publishing? && e.done == STEPS && g == Full(e.stage, m)
    && Prepared(seals, id, s, e.stage, e.checkpoint, STEPS, m)
  }

  lemma CompletedStaysKept(seals: Seals, id: Identity, root: Generation, events: seq<Event>, states: seq<Writer>,
                           at: nat, m: Manifest, g: Generation, later: nat)
    requires Run(seals, id, events, states) && Keeps(seals, id, states[0], root) && at < later < |states|
    requires Completes(seals, id, states[at], events[at], m, g)
    ensures Keeps(seals, id, states[later], g)
  {
    var step := Step(seals, id);
    forall s, e, t | Keeps(seals, id, s, root) && step(s, e, t) ensures Keeps(seals, id, t, root) {
      NextKeeps(seals, id, s, e, t, root);
    }
    forall s, e, t | Keeps(seals, id, s, root) && step(s, e, t) && Completes(seals, id, s, e, m, g)
      ensures Keeps(seals, id, t, g)
    {
      CompletedKeeps(seals, id, s, e, t, root, m);
    }
    forall s, e, t | Keeps(seals, id, s, g) && step(s, e, t) ensures Keeps(seals, id, t, g) {
      NextKeeps(seals, id, s, e, t, g);
    }
    HoldsSince(step, s => Keeps(seals, id, s, root), (s, e) => Completes(seals, id, s, e, m, g),
               (origin, s) => Keeps(seals, id, s, g), events, states, at, later);
  }

  /** Every state of every run reopens, so no interleaving of failures bricks the store. */
  lemma AlwaysReopens(seals: Seals, id: Identity, root: Generation, events: seq<Event>, states: seq<Writer>, at: nat)
    requires Run(seals, id, events, states) && Keeps(seals, id, states[0], root) && at < |states|
    ensures OpensAtOrAfter(seals, id, states[at].v, root)
  {
    RunKeeps(seals, id, events, states, 0, at, root);
    KeepsOpens(seals, id, states[at], root);
  }

  lemma {:induction false} HeldIsTaken(seals: Seals, id: Identity, gens: GenerationsDir, chain: seq<Generation>,
                                       g: Generation)
    requires Held(seals, id, gens, chain) && g in chain
    ensures Complete(g) && Taken(gens, g.manifest.value.generation)
    ensures Now(gens, DirName(g)) == Some(Item(Folder, g, true))
  {
    if g != chain[0] {
      assert g in chain[1..];
      HeldIsTaken(seals, id, gens, chain[1..], g);
    }
  }

  /** The number of an acknowledged generation is never given out again, and its
      directory keeps its contents. */
  lemma AcknowledgedNumbersAreNotReused(seals: Seals, id: Identity, root: Generation, events: seq<Event>,
                                        states: seq<Writer>, at: nat, m: Manifest, later: nat, next: nat)
    requires Run(seals, id, events, states) && Keeps(seals, id, states[0], root)
    requires at < later < |states| && events[at].Publishing? && events[at].done == STEPS
    requires Prepared(seals, id, states[at], events[at].stage, events[at].checkpoint, STEPS, m)
    requires AboveTaken(states[later].v.gens, next)
    ensures m.generation < next
    ensures Now(states[later].v.gens,
      GenerationName(m.generation)) == Some(Item(Folder, Full(events[at].stage, m), true))
  {
    var g := Full(events[at].stage, m);
    AcknowledgedGenerationsPersist(seals, id, root, events, states, at, m, later);
    var chain :| OpensAs(seals, id, states[later].v, chain) && g in chain;
    HeldIsTaken(seals, id, states[later].v.gens, chain, g);
    TakenIsBelow(states[later].v.gens, next, m.generation);
  }

  // ---------- which numbers are used up ----------

  /** Without a crash a publication uses its number up exactly when it gets past the directory
      rename; one that stops earlier leaves the number to the next attempt. */
  lemma NumberIsUsedExactly(seals: Seals, v: Volume, stage: Stage, m: Manifest, done: nat)
    requires Staged(v, stage) && done <= STEPS
    ensures Taken(After(seals, v, stage, m, done).gens, stage.generation) <==> done >= 3
  {
    FinalIsFree(v.gens, stage);
  }

  /** The number stays taken whatever a crash loses. */
  ghost predicate Spent(v: Volume, generation: nat) {
    forall crashed :: CrashVolume(v, crashed) ==> Taken(crashed.gens, generation)
  }

  lemma SettledIsSpent(v: Volume, generation: Word64, item: Item<Generation>)
    requires Settled(v.gens, GenerationName(generation), item)
    ensures Spent(v, generation)
  {
    forall crashed | CrashVolume(v, crashed) ensures Taken(crashed.gens, generation) {
      SettledSurvives(v.gens, crashed.gens, GenerationName(generation), item);
    }
  }

  lemma SettledAfter(seals: Seals, v: Volume, stage: Stage, m: Manifest, done: nat)
    requires Housed(v.gens) && Staged(v, stage) && 4 <= done <= STEPS
    ensures Settled(After(seals, v, stage, m, done).gens, GenerationName(stage.generation),
      Item(Folder, Full(stage, m), true))
  {
    GensStatesStep(v.gens, stage, m);
  }

  lemma BeforeGensSync(gens: GenerationsDir, stage: Stage, m: Manifest, i: nat)
    requires Housed(gens) && IsStageName(stage.name) && AboveTaken(gens, stage.generation) && i < 3
    ensures var s := GensStates(gens, stage, m)[i];
      && Coherent(s) && None in Candidates(s, GenerationName(stage.generation))
      && (forall g: nat :: Taken(s, g) && g != stage.generation ==> g < stage.generation)
  {
    var s := GensStates(gens, stage, m)[i];
    GensStatesStep(gens, stage, m);
    assert GensStep(gens, s);
    FreeUntilGensSync(gens, stage, m, i);
    forall g: nat | Taken(s, g) && g != stage.generation ensures g < stage.generation {
      TakenBefore(gens, stage, m, i, g);
    }
  }

  lemma FreeUntilGensSync(gens: GenerationsDir, stage: Stage, m: Manifest, i: nat)
    requires Housed(gens) && IsStageName(stage.name) && AboveTaken(gens, stage.generation) && i < 3
    ensures None in Candidates(GensStates(gens, stage, m)[i], GenerationName(stage.generation))
  {
    FinalIsFree(gens, stage);
    assert Now(gens, GenerationName(stage.generation)) in Candidates(gens, GenerationName(stage.generation));
  }

  lemma TakenBefore(gens: GenerationsDir, stage: Stage, m: Manifest, i: nat, g: nat)
    requires IsStageName(stage.name) && i < 3 && Taken(GensStates(gens, stage, m)[i], g) && g != stage.generation
    ensures Taken(gens, g)
  {
    GenerationNameExact(GenerationName(g), g);
    GenerationNameExact(GenerationName(stage.generation), stage.generation);
  }

  lemma LosesGeneration(gens: GenerationsDir, generation: Word64) returns (crashed: GenerationsDir)
    requires Coherent(gens) && None in Candidates(gens, GenerationName(generation))
    requires forall g: nat :: Taken(gens, g) && g != generation ==> g < generation
    ensures CrashImage(gens, crashed) && !Taken(crashed, generation) && AboveTaken(crashed, generation)
  {
    crashed := CrashWith(gens, GenerationName(generation), None);
    CrashWithIsImage(gens, GenerationName(generation), None);
    forall g: nat | Taken(crashed, g) ensures g < generation {
      assert Taken(gens, g);
    }
  }

  /** Before the sync of the generations directory some crash gives the number back: the next
      allocation may hand it out again. */
  lemma NumberCanBeLost(seals: Seals, v: Volume, stage: Stage, m: Manifest, done: nat) returns (crashed: Volume)
    requires Housed(v.gens) && Coherent(v.work) && Staged(v, stage) && done <= 3
    ensures CrashVolume(After(seals, v, stage, m, done), crashed)
    ensures !Taken(crashed.gens, stage.generation) && AboveTaken(crashed.gens, stage.generation)
  {
    FinalIsFree(v.gens, stage);
    if done > 0 {
      BeforeGensSync(v.gens, stage, m, done - 1);
    } else {
      assert Now(v.gens, GenerationName(stage.generation)) in Candidates(v.gens, GenerationName(stage.generation));
    }
    var gens := LosesGeneration(After(seals, v, stage, m, done).gens, stage.generation);
    CrashWithIsImage(v.work, "", Now(v.work, ""));
    crashed := Volume(CrashWith(v.work, "", Now(v.work, "")), gens);
  }

  /** A publication uses its number up for good exactly when it gets past the sync of the
      generations directory. */
  lemma NumberIsSpentExactly(seals: Seals, v: Volume, stage: Stage, m: Manifest, done: nat)
    requires Housed(v.gens) && Coherent(v.work) && Staged(v, stage) && done <= STEPS
    ensures Spent(After(seals, v, stage, m, done), stage.generation) <==> done >= 4
  {
    if done >= 4 {
      SettledAfter(seals, v, stage, m, done);
      SettledIsSpent(After(seals, v, stage, m, done), stage.generation, Item(Folder, Full(stage, m), true));
    } else {
      var crashed := NumberCanBeLost(seals, v, stage, m, done);
    }
  }

  lemma AfterKeepsSettled(seals: Seals, v: Volume, stage: Stage, m: Manifest, done: nat)
    requires Housed(v.gens) && Staged(v, stage) && done <= STEPS
    ensures GensStep(v.gens, After(seals, v, stage, m, done).gens)
  {
    GensStatesStep(v.gens, stage, m);
    if done > 0 {
      assert GensStep(v.gens, GensStates(v.gens, stage, m)[if done <= 4 then done - 1 else 3]);
    }
  }

  /** No event loses or changes a generation that is durable, or brings in a name that reopening refuses. */
  lemma NextKeepsSettled(seals: Seals, id: Identity, s: Writer, e: Event, t: Writer)
    requires Housed(s.v.gens) && Next(seals, id, s, e, t)
    ensures GensStep(s.v.gens, t.v.gens)
  {
    match e
    case Staging(name, content) => StagePutStep(s.v.gens, name, Item(Folder, content, false));
    case Crashing => CrashGens(s.v.gens, t.v.gens);
    case Opening =>
    case Publishing(stage, _, done, _) =>
      var m := AttemptManifest(seals, id, s, e, t);
      AfterKeepsSettled(seals, s.v, stage, m, done);
    case Dying(stage, _, done) =>
      var m := AttemptManifest(seals, id, s, e, t);
      AfterKeepsSettled(seals, s.v, stage, m, done);
  }

  /** The directory of this number is durable. */
  ghost predicate Fixed(s: Writer, generation: nat) {
    && Housed(s.v.gens) && generation < TWO_TO_THE_64
    && exists item :: Settled(s.v.gens, GenerationName(generation), item)
  }

  lemma NextKeepsFixed(seals: Seals, id: Identity, s: Writer, e: Event, t: Writer, generation: nat)
    requires Fixed(s, generation) && Next(seals, id, s, e, t)
    ensures Fixed(t, generation)
  {
    var item :| Settled(s.v.gens, GenerationName(generation), item);
    NextKeepsSettled(seals, id, s, e, t);
    GenerationNameExact(GenerationName(generation), generation);
    assert Settled(t.v.gens, GenerationName(generation), item);
  }

  lemma AttemptFixes(seals: Seals, id: Identity, s: Writer, e: Event, t: Writer)
    requires Housed(s.v.gens) && Attempts(e) && e.done >= 4 && Next(seals, id, s, e, t)
    ensures Fixed(t, e.stage.generation)
  {
    var m := AttemptManifest(seals, id, s, e, t);
    NextKeepsSettled(seals, id, s, e, t);
    SettledAfter(seals, s.v, e.stage, m, e.done);
  }

  /** A number whose attempt got past the sync of the generations directory, whether it then
      succeeded, failed, died or ended unknown, is taken in every later state of every run and
      never handed out again. */
  lemma SpentNumbersAreNotReused(seals: Seals, id: Identity, events: seq<Event>, states: seq<Writer>, at: nat,
                                 later: nat, next: nat)
    requires Run(seals, id, events, states) && Housed(states[0].v.gens)
    requires at < later < |states| && Attempts(events[at]) && events[at].done >= 4
    ensures Taken(states[later].v.gens, events[at].stage.generation)
    ensures AboveTaken(states[later].v.gens, next) ==> events[at].stage.generation < next
  {
    StaysFixed(seals, id, events, states, at, later);
    FixedIsTaken(states[later], events[at].stage.generation, next);
  }

  lemma FixedIsTaken(s: Writer, generation: nat, next: nat)
    requires Fixed(s, generation)
    ensures Taken(s.v.gens, generation) && (AboveTaken(s.v.gens, next) ==> generation < next)
  {
    assert Taken(s.v.gens, generation);
  }

  lemma StaysFixed(seals: Seals, id: Identity, events: seq<Event>, states: seq<Writer>, at: nat, later: nat)
    requires Run(seals, id, events, states) && Housed(states[0].v.gens)
    requires at < later < |states| && Attempts(events[at]) && events[at].done >= 4
    ensures Fixed(states[later], events[at].stage.generation)
  {
    var step, generation := Step(seals, id), events[at].stage.generation;
    forall s: Writer, e, t: Writer | Housed(s.v.gens) && step(s, e, t) ensures Housed(t.v.gens) {
      NextKeepsSettled(seals, id, s, e, t);
    }
    forall s: Writer, e, t | Housed(s.v.gens) && step(s, e, t) && Spends(e, generation) ensures Fixed(t, generation) {
      AttemptFixes(seals, id, s, e, t);
    }
    forall s, e, t | Fixed(s, generation) && step(s, e, t) ensures Fixed(t, generation) {
      NextKeepsFixed(seals, id, s, e, t, generation);
    }
    HoldsSince(step, (s: Writer) => Housed(s.v.gens), (s, e) => Spends(e, generation),
      (origin, s) => Fixed(s, generation),
               events, states, at, later);
  }

  predicate Spends(e: Event, generation: nat) {
    Attempts(e) && e.done >= 4 && e.stage.generation == generation
  }

  lemma AfterKeepsTaken(seals: Seals, v: Volume, stage: Stage, m: Manifest, done: nat, generation: nat)
    requires Staged(v, stage) && done <= STEPS && Taken(v.gens, generation)
    ensures Taken(After(seals, v, stage, m, done).gens, generation)
  {
    GenerationNameExact(GenerationName(generation), generation);
    FinalIsFree(v.gens, stage);
    assert forall i :: 0 <= i < 4 ==> Now(GensStates(v.gens, stage, m)[i], GenerationName(generation)).Some?;
  }

  lemma NextKeepsTaken(seals: Seals, id: Identity, s: Writer, e: Event, t: Writer, generation: nat)
    requires Taken(s.v.gens, generation) && !e.Crashing? && Next(seals, id, s, e, t)
    ensures Taken(t.v.gens, generation)
  {
    GenerationNameExact(GenerationName(generation), generation);
    if Attempts(e) {
      var m := AttemptManifest(seals, id, s, e, t);
      AfterKeepsTaken(seals, s.v, e.stage, m, e.done, generation);
    }
  }

  /** A number that is taken stays taken until a crash. */
  lemma {:induction false} TakenUntilCrash(seals: Seals, id: Identity, events: seq<Event>, states: seq<Writer>,
                                           at: nat, later: nat, generation: nat)
    requires Run(seals, id, events, states) && at <= later < |states| && Taken(states[at].v.gens, generation)
    requires forall i :: at <= i < later ==> !events[i].Crashing?
    ensures Taken(states[later].v.gens, generation)
    decreases later
  {
    if at < later {
      TakenUntilCrash(seals, id, events, states, at, later - 1, generation);
      NextKeepsTaken(seals, id, states[later - 1], events[later - 1], states[later], generation);
    }
  }

  // ---------- exactly which states are crash atomic ----------

  /** How one event moves the certainty of the pointer: a switch without its sync makes it
      uncertain; the sync after a switch and a crash settle it. */
  predicate CertainAfter(e: Event, before: bool) {
    match e
    case Crashing => true
    case Publishing(_, _, done, _) => if done == SWITCHED then false else done == STEPS || before
    case Dying(_, _, done) => if done == SWITCHED then false else done == STEPS || before
    case Staging(_, _) => before
    case Opening => before
  }

  function Moves(): (Writer, Event, bool) -> bool {
    (s, e, before) => CertainAfter(e, before)
  }

  /** Has every switch since the last crash been followed by a sync of the work directory? */
  predicate Certain(events: seq<Event>, states: seq<Writer>, at: nat)
    requires at <= |events| <= |states|
  {
    Tracked(Moves(), true, events, states, at)
  }

  lemma AttemptCertain(seals: Seals, id: Identity, v: Volume, chains: set<seq<Generation>>, prior: seq<Generation>,
                       stage: Stage, m: Manifest, done: nat)
    requires Publishes(seals, id, v, chains, prior, stage, m) && done <= STEPS
    ensures PointerCertain(After(seals, v, stage, m, done)) <==>
      (done != SWITCHED && (done == STEPS || PointerCertain(v)))
  {
    WorkStatesStep(v.work, stage.pointer, PointerTo(seals, m));
    if done == SWITCHED {
      AfterIs(seals, v, stage, m);
      assert Now(v.work, ACTIVE_FILE) in Candidates(v.work, ACTIVE_FILE);
      assert Settled(v.gens, DirName(prior[0]), Item(Folder, prior[0], true));
      TakenIsBelow(v.gens, stage.generation, Top(prior).generation);
    } else if 4 < done < SWITCHED {
      assert After(seals, v, stage, m, done).work == WorkStates(v.work, stage.pointer, PointerTo(seals, m))[done - 5];
    }
  }

  /** The chain a writer extends. */
  lemma ActiveChain(seals: Seals, id: Identity, s: Writer, g: Generation)
    returns (chains: set<seq<Generation>>, prior: seq<Generation>)
    requires Keeps(seals, id, s, g) && CanWrite(s)
    ensures Pointed(seals, id, s.v, chains) && prior in chains && Shown(seals, s.v, prior)
      && Top(prior) == s.active.value
  {
    chains :| Tracks(seals, id, s, chains) && AllHave(chains, g);
    prior :| prior in chains && Shown(seals, s.v, prior) && Top(prior) == s.active.value;
  }

  lemma CrashIsCertain(v: Volume, crashed: Volume)
    requires CrashVolume(v, crashed)
    ensures PointerCertain(crashed)
  {
    assert SlotSurvives(v.work, crashed.work, ACTIVE_FILE);
  }

  lemma NextCertain(seals: Seals, id: Identity, s: Writer, e: Event, t: Writer, g: Generation)
    requires Keeps(seals, id, s, g) && Next(seals, id, s, e, t)
    ensures PointerCertain(t.v) <==> CertainAfter(e, PointerCertain(s.v))
  {
    if e.Crashing? {
      CrashIsCertain(s.v, t.v);
    } else if Attempts(e) {
      var m := AttemptManifest(seals, id, s, e, t);
      WriterCertain(seals, id, s, e.stage, e.checkpoint, e.done, m, g);
    }
  }

  lemma WriterCertain(seals: Seals, id: Identity, s: Writer, stage: Stage, checkpoint: Checkpoint, done: nat,
                      m: Manifest,
                      g: Generation)
    requires Keeps(seals, id, s, g) && Prepared(seals, id, s, stage, checkpoint, done, m)
    ensures PointerCertain(After(seals, s.v, stage, m, done)) <==>
      (done != SWITCHED && (done == STEPS || PointerCertain(s.v)))
  {
    var chains, prior := ActiveChain(seals, id, s, g);
    AttemptCertain(seals, id, s.v, chains, prior, stage, m, done);
  }

  /** Over every run from a bootstrapped store the pointer is certain exactly when no switch is
      left without its sync since the last crash. */
  lemma PointerCertainExactly(seals: Seals, id: Identity, root: Generation, events: seq<Event>, states: seq<Writer>,
                              at: nat)
    requires Run(seals, id, events, states) && Keeps(seals, id, states[0], root) && PointerCertain(states[0].v)
    requires at < |states|
    ensures PointerCertain(states[at].v) <==> Certain(events, states, at)
  {
    var step := Step(seals, id);
    forall s: Writer, e, t: Writer | Keeps(seals, id, s, root) && step(s, e, t)
      ensures Keeps(seals, id, t, root) && (PointerCertain(t.v) <==> Moves()(s, e, PointerCertain(s.v)))
    {
      NextKeeps(seals, id, s, e, t, root);
      NextCertain(seals, id, s, e, t, root);
    }
    TrackedExactly(step, s => Keeps(seals, id, s, root), (s: Writer) => PointerCertain(s.v), Moves(), events, states,
      at);
  }

  /** In every state of every run, the next publication is crash atomic exactly when no earlier
      switch is left without its sync since the last crash. */
  lemma RunAtomicExactly(seals: Seals, id: Identity, root: Generation, events: seq<Event>, states: seq<Writer>, at: nat,
                         stage: Stage, checkpoint: Checkpoint, m: Manifest)
    returns (prior: seq<Generation>)
    requires Run(seals, id, events, states) && Keeps(seals, id, states[0], root) && PointerCertain(states[0].v)
    requires at < |states| && Prepared(seals, id, states[at], stage, checkpoint, STEPS, m)
    ensures OpensAs(seals, id, states[at].v, prior) && Top(prior) == states[at].active.value
    ensures AtomicFrom(seals, id, states[at].v, prior, stage, m) <==> Certain(events, states, at)
  {
    var chains;
    RunKeeps(seals, id, events, states, 0, at, root);
    chains, prior := ActiveChain(seals, id, states[at], root);
    ShownOpens(seals, id, states[at].v, chains, prior);
    PointerCertainExactly(seals, id, root, events, states, at);
    AtomicExactly(seals, id, states[at].v, chains, prior, stage, m);
  }

  // ---------- bootstrap ----------

  /** The layout before the first pointer exists: generation 0 is being built. */
  ghost predicate Prepared0(v: Volume, content: Generation) {
    && Coherent(v.work) && Now(v.work, GENERATIONS_DIR) == Some(GENERATIONS_ENTRY)
    && Housed(v.gens) && Now(v.gens, GenerationName(0)).Some?
    && content.repo.Some? && content.journal.Some?
  }

  /** The volume once the first generation and its pointer are written and synced. */
  function Bootstrapped(seals: Seals, v: Volume, content: Generation, m: Manifest, staging: string): Volume {
    var root := content.(manifest := Some(m));
    var written := Put(v.gens, GenerationName(0), Some(Item(Folder, root, false)));
    var synced := Put(written, GenerationName(0), Some(Item(Folder, root, true)));
    Volume(WorkStates(v.work, staging, PointerTo(seals, m))[4], SyncDirectory(synced))
  }

  lemma BootstrapHolds(seals: Seals, id: Identity, v: Volume, content: Generation, m: Manifest, staging: string)
    requires Prepared0(v, content) && staging != ACTIVE_FILE && staging != GENERATIONS_DIR
    requires ValidManifest(seals, m) && m.id == id && IsRoot(m)
    ensures var root := content.(manifest := Some(m));
      var gens := Bootstrapped(seals, v, content, m, staging).gens;
      Housed(gens) && Owned(seals, id, gens, [root])
  {
    GenerationNameExact(GenerationName(0), 0);
    assert forall name :: Now(v.gens, name) in Candidates(v.gens, name);
  }

  /** A finished bootstrap is a store to which every run theorem applies: the pointer is certain,
      and names the root generation alone. */
  lemma BootstrapEstablishes(seals: Seals, id: Identity, v: Volume, content: Generation, m: Manifest, staging: string)
    requires Prepared0(v, content) && staging != ACTIVE_FILE && staging != GENERATIONS_DIR
    requires ValidManifest(seals, m) && m.id == id && IsRoot(m)
    ensures var root := content.(manifest := Some(m));
      var t := Writer(Bootstrapped(seals, v, content, m, staging), Some(m), true);
      Tracks(seals, id, t, {[root]}) && Keeps(seals, id, t, root) && PointerCertain(t.v) && Housed(t.v.gens)
  {
    var root := content.(manifest := Some(m));
    var t := Writer(Bootstrapped(seals, v, content, m, staging), Some(m), true);
    BootstrapHolds(seals, id, v, content, m, staging);
    BootstrapPointer(seals, v.work, staging, root);
    OneChainTracks(seals, id, t, root);
    KeptBy(seals, id, t, {[root]}, root);
  }

  lemma OneChainTracks(seals: Seals, id: Identity, t: Writer, root: Generation)
    requires Complete(root) && t.active == root.manifest && Housed(t.v.gens) && Owned(seals, id, t.v.gens, [root])
    requires Within(seals, t.v.work, {[root]}) && Shown(seals, t.v, [root])
    ensures Tracks(seals, id, t, {[root]}) && AllHave({[root]}, root)
  {
    assert AllOwned(seals, id, t.v.gens, {[root]});
    assert [root] in {[root]};
  }

  lemma BootstrapPointer(seals: Seals, work: WorkDir, staging: string, root: Generation)
    requires Coherent(work) && Now(work, GENERATIONS_DIR) == Some(GENERATIONS_ENTRY) && Complete(root)
    requires staging != ACTIVE_FILE && staging != GENERATIONS_DIR
    ensures var after := WorkStates(work, staging, PointerTo(seals, root.manifest.value))[4];
      Within(seals, after, {[root]}) && PointsAt(seals, Now(after, ACTIVE_FILE), [root])
  {
    assert ACTIVE_FILE != GENERATIONS_DIR by { assert ACTIVE_FILE[0] != GENERATIONS_DIR[0]; }
    assert [root] in {[root]};
    WorkStatesCoherent(work, staging, PointerTo(seals, root.manifest.value));
  }
}
