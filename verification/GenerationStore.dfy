/** The generation store as it works on disk: staging a copy and publishing it. */
module GenerationStore {
  import opened Framing
  import opened Names
  import opened Durability
  import opened Journal
  import opened Generations
  import opened GenerationPublish

  const STAGE_ATTEMPTS := 128

  /** The calls of a publication, in order; any of them may fail. */
  datatype Call =
    | WriteManifest | SyncTree | RenameDirectory | SyncGenerations
    | AllocatePointer | WritePointer | SyncPointer | SwitchPointer | SyncWork

  /** How many calls complete before the first that fails. */
  function Completed(fails: set<Call>): (done: nat)
    ensures done <= STEPS
  {
    if WriteManifest in fails then 0
    else if SyncTree in fails then 1
    else if RenameDirectory in fails then 2
    else if SyncGenerations in fails then 3
    else if AllocatePointer in fails then 4
    else if WritePointer in fails then 5
    else if SyncPointer in fails then 6
    else if SwitchPointer in fails then 7
    else if SyncWork in fails then 8
    else 9
  }

  /** The calls of a publication in their order. */
  const CALLS := [WriteManifest, SyncTree, RenameDirectory, SyncGenerations, AllocatePointer, WritePointer, SyncPointer,
                  SwitchPointer, SyncWork]

  /** A publication stops exactly at its first failing call; it succeeds exactly when none fails,
      and its outcome is unknown exactly when the last sync alone does. */
  lemma CompletedExactly(fails: set<Call>)
    ensures var done := Completed(fails);
      && (done < STEPS ==> CALLS[done] in fails) && (forall i :: 0 <= i < done ==> CALLS[i] !in fails)
    ensures Outcome(Completed(fails)).Ok? <==> fails == {}
    ensures Outcome(Completed(fails)) == Err(OutcomeUnknown) <==> fails == {SyncWork}
  {
    if Completed(fails) >= SWITCHED {
      forall c | c in fails ensures c == SyncWork && Completed(fails) == SWITCHED {
      }
    }
  }

  function StageName(generation: Word64, pid: string, attempt: nat): string {
    STAGE_PREFIX + Padded(generation, PADDED_DIGITS) + "-" + pid + "-" + Decimal(attempt)
  }

  /** The number after every visible one. */
  ghost predicate IsNext(gens: GenerationsDir, next: nat) {
    0 < next < TWO_TO_THE_64 && AboveTaken(gens, next) && (next == 1 || Taken(gens, next - 1))
  }


  /** A number is left, and a staging name for it. */
  ghost predicate HasRoom(gens: GenerationsDir, pid: string) {
    exists next: Word64 :: IsNext(gens, next) && HasName(gens, next, pid)
  }

  predicate HasName(gens: GenerationsDir, next: Word64, pid: string) {
    exists attempt :: 0 <= attempt < STAGE_ATTEMPTS && Now(gens, StageName(next, pid, attempt)).None?
  }

  lemma NextIsOne(gens: GenerationsDir, a: nat, b: nat)
    requires IsNext(gens, a) && IsNext(gens, b)
    ensures a == b
  {
  }

  lemma RoomExactly(gens: GenerationsDir, next: Option<nat>, pid: string)
    requires next.Some? <==> !Taken(gens, TWO_TO_THE_64 - 1)
    requires next.Some? ==> IsNext(gens, next.value)
    ensures HasRoom(gens, pid) <==> next.Some? && HasName(gens, next.value, pid)
  {
    forall other: nat | IsNext(gens, other) ensures next == Some(other) {
      if next.Some? {
        NextIsOne(gens, next.value, other);
      }
    }
  }

  class Store {
    const seals: Seals
    const id: Identity
    var v: Volume
    var active: Manifest

    constructor (seals: Seals, id: Identity, v: Volume, active: Manifest)
      requires Opens(seals, id, v, active)
      ensures this.seals == seals && this.id == id && this.v == v && this.active == active
    {
      this.seals := seals;
      this.id := id;
      this.v := v;
      this.active := active;
    }

    /** Number the next generation and copy the active one into a staged directory. */
    method StageGeneration(listing: seq<(string, Kind)>, pid: string, pointer: string)
      returns (r: Result<Stage, GenerationError>)
      requires Opens(seals, id, v, active) && Lists(listing, Kinds(v.gens))
      requires pointer != ACTIVE_FILE && pointer != GENERATIONS_DIR
      modifies this
      ensures active == old(active)
      ensures r.Err? ==> v == old(v)
      ensures r.Ok? <==> HasRoom(old(v).gens, pid)
      ensures r.Ok? ==>
        && Staged(v, r.value) && IsNext(old(v).gens, r.value.generation)
        && r.value.content == Now(old(v).gens, GenerationName(active.generation)).value.data.(manifest := None)
        && Now(old(v).gens, r.value.name).None? && v.work == old(v).work
        && v.gens == Put(old(v).gens, r.value.name, Some(Item(Folder, r.value.content, false)))
    {
      var next := NextGeneration(listing, v.gens);
      RoomExactly(v.gens, next, pid);
      if next.None? {
        return Err(Corrupt);
      }
      var found := FindName(next.value, pid);
      if found.None? {
        return Err(Io);
      }
      var name := found.value;
      var content := Now(v.gens, GenerationName(active.generation)).value.data.(manifest := None);
      v := v.(gens := Put(v.gens, name, Some(Item(Folder, content, false))));
      StagingTakesNothing(old(v).gens, name, Item(Folder, content, false), next.value);
      return Ok(Stage(name, next.value, content, pointer));
    }

    /** Try numbered staging names until one is free. */
    method FindName(next: Word64, pid: string) returns (name: Option<string>)
      ensures name.Some? <==> HasName(v.gens, next, pid)
      ensures name.Some? ==> IsStageName(name.value) && Now(v.gens, name.value).None?
    {
      for attempt := 0 to STAGE_ATTEMPTS
        invariant forall a :: 0 <= a < attempt ==> Now(v.gens, StageName(next, pid, a)).Some?
      {
        if Now(v.gens, StageName(next, pid, attempt)).None? {
          return Some(StageName(next, pid, attempt));
        }
      }
      return None;
    }

    /** Change what a staged directory holds. */
    method EditStage(stage: Stage, content: Generation)
      requires Staged(v, stage) && content.repo.Some? && content.journal.Some?
      modifies this
      ensures active == old(active) && v.work == old(v).work
      ensures v.gens == Put(old(v).gens, stage.name, Some(Item(Folder, content, false)))
      ensures Staged(v, stage.(content := content))
    {
      StagingTakesNothing(v.gens, stage.name, Item(Folder, content, false), stage.generation);
      v := v.(gens := Put(v.gens, stage.name, Some(Item(Folder, content, false))));
    }

    /** Write, sync and rename the staged directory. */
    method PublishDirectory(stage: Stage, m: Manifest, fails: set<Call>) returns (done: nat)
      modifies this
      ensures active == old(active) && done == (if Completed(fails) <= 4 then Completed(fails) else 4)
      ensures v == After(seals, old(v), stage, m, done)
    {
      if WriteManifest in fails {
        return 0;
      }
      v := v.(gens := Put(v.gens, stage.name, Some(Item(Folder, Full(stage, m), false))));
      if SyncTree in fails {
        return 1;
      }
      v := v.(gens := Put(v.gens, stage.name, Some(Item(Folder, Full(stage, m), true))));
      if RenameDirectory in fails {
        return 2;
      }
      v := v.(gens := Rename(v.gens, stage.name, GenerationName(stage.generation)));
      if SyncGenerations in fails {
        return 3;
      }
      v := v.(gens := SyncDirectory(v.gens));
      return 4;
    }

    /** Write and sync the pointer beside the active one, then rename it over. */
    method SwitchActive(staging: string, p: Pointer, fails: set<Call>) returns (done: nat)
      requires Completed(fails) >= 4
      modifies this
      ensures active == old(active) && done == Completed(fails) - 4
      ensures done == 0 ==> v == old(v)
      ensures done > 0 ==> v == Volume(WorkStates(old(v).work, staging, p)[done - 1], old(v).gens)
    {
      if AllocatePointer in fails {
        return 0;
      }
      v := v.(work := Put(v.work, staging, Some(Item(Regular, None, false))));
      if WritePointer in fails {
        return 1;
      }
      v := v.(work := Put(v.work, staging, Some(Item(Regular, Some(p), false))));
      if SyncPointer in fails {
        return 2;
      }
      v := v.(work := Put(v.work, staging, Some(Item(Regular, Some(p), true))));
      if SwitchPointer in fails {
        return 3;
      }
      v := v.(work := Rename(v.work, staging, ACTIVE_FILE));
      if SyncWork in fails {
        return 4;
      }
      v := v.(work := SyncDirectory(v.work));
      return 5;
    }

    /** Publish a staged generation.  Whichever calls fail, the volume stops after exactly
        the steps before the first failure, the caller learns which case it is, and
        memory follows only success. */
    method PublishWith(stage: Stage, checkpoint: Checkpoint, fails: set<Call>) returns (r: Result<(), GenerationError>)
      modifies this
      ensures var m := ManifestFor(seals, id, old(active), stage, checkpoint);
        && (m.None? ==> r == Err(Corrupt) && v == old(v) && active == old(active))
        && (m.Some? ==>
              var done := Completed(fails);
              && r == Outcome(done) && v == After(seals, old(v), stage, m.value, done)
              && active == (if r.Ok? then m.value else old(active)))
    {
      var made := ManifestFor(seals, id, active, stage, checkpoint);
      if made.None? {
        return Err(Corrupt);
      }
      var m := made.value;
      ghost var start := v;
      var first := PublishDirectory(stage, m, fails);
      if first < 4 {
        return Err(Io);
      }
      var second := SwitchActive(stage.pointer, PointerTo(seals, m), fails);
      AfterBoth(seals, start, stage, m, second);
      r := Outcome(4 + second);
      if r.Ok? {
        active := m;
      }
    }
  }

  lemma AfterBoth(seals: Seals, v: Volume, stage: Stage, m: Manifest, second: nat)
    requires second <= 5
    ensures var gens := GensStates(v.gens, stage, m)[3];
      && After(seals, v, stage, m, 4) == Volume(v.work, gens)
      && (second > 0 ==>
            After(seals, v, stage, m,
              4 + second) == Volume(WorkStates(v.work, stage.pointer, PointerTo(seals, m))[second - 1], gens))
  {
  }

  lemma StagingTakesNothing(gens: GenerationsDir, name: string, item: Item<Generation>, next: nat)
    requires IsStageName(name) && AboveTaken(gens, next)
    ensures AboveTaken(Put(gens, name, Some(item)), next)
  {
    forall g: nat | Taken(Put(gens, name, Some(item)), g) ensures g < next {
      GenerationNameExact(GenerationName(g), g);
      assert Taken(gens, g);
    }
  }
}
