# Bullet Git: a verified model of what survives

Bullet Git is a single-writer workspace daemon. Agents propose patches; the daemon admits
them under one-use permits, applies them to a private clone, journals them, and publishes
each result as a new immutable generation. Its value lies in what still holds after crashes,
torn writes, replays and refusals. This project models that core in Dafny and proves it.

## What is modelled

- **Durable directories** (`Durability`). Each name carries what is visible now and every
  entry a crash may leave. Changing a name adds a possibility, syncing the directory leaves
  only the visible one, and a crash chooses name by name; unsynced file data comes back as
  anything. Journal, content store and generations all run over this one model.
- **Runs** (`Runs`). State machines, what every step keeps, and flags tracked along a run.
- **Digests** are an arbitrary function. Binding results read "equal, or here are two
  different preimages with one digest".
- **Journal** (`Journal`, `JournalStore`, `JournalWriter`, `JournalRuns`). Checksum-chained
  batch files, loading them in any enumeration order, the link-based append, and every run of
  appends, deaths, crashes and reopenings.
- **Content store** (`Cas`, `CasStore`). Puts as the states the disk passes through, and
  every run of puts, deaths, crashes and reopenings.
- **Generations** (`Generations`, `GenerationPublish`, `GenerationRuns`, `GenerationStore`,
  `TreeSync`). Manifests, pointer, lineage; a publication is nine states and a failure or
  crash stops it after some prefix.
- **Ledger, gateway, daemon** (`Ledger`, `LedgerBytes`, `Gateway`, `DaemonRuns`,
  `LedgerStore`, `Receipts`, `Protocol`). Reserve and settle with torn appends, permits, the
  freeze latch, and every run of requests, deaths at any point, restarts and machine crashes
  over one ledger directory.
- **Patches** (`Paths`, `Proposal`, `FileTree`, `Apply`). Scope, admission, application to a
  hierarchical tree in any order, and rollback under failing system calls.
- **History** (`FileMaps`, `History`, `WorkspaceRuns`, `Repository`). The content store, the
  staged tree, the staged journal and the generations together: the journal of whichever
  generation opens replays both ways.
- **Cleanup** (`Artifact`, `Json`, `Preservation`, `Cleanup`, `CleanupSample`). The recursive
  tree digest binds the whole tree; from the issue of a receipt to the deletion, a complete
  copy lies elsewhere. Of the codecs only injectivity is asked, and a JSON codec has it.

System calls that may fail, the clock, the online checker's answers, directory enumeration
order, Unicode normalisation, the case fold and the JSON codecs are parameters. Operations
that the program performs step by step are classes and methods; each is tied to a function
or relation on values, and the theorems about runs are stated on those. The objects of the
daemon (`LedgerStore`) and of the writer (`Repository`) carry their run as ghost state, and
every call is proved to extend it.

## Findings

These properties, which the design suggests, do not hold as such. Each is kept as the code
has it, with an input at which it fails and the exact condition under which it holds.

- **Reloading.** An append may end at sequence number 2^64 - 1, but a journal that ends there
  does not load: `JournalStore.LongestAppendDoesNotReload`,
  `JournalStore.FullJournalDoesNotLoad`.
- **Crash atomicity of appends.** Opening a journal does not sync it. After an append with an
  unknown outcome and a reopening, the next append can crash into a journal with a gap, which
  never loads: `JournalRuns.UnknownAppendCanLoseTheJournal`. An append is crash atomic exactly
  when no append ended unknown, or died between link and sync, since the last directory sync
  or crash: `JournalRuns.RunAppendAtomicExactly`.
- **Crash atomicity of publications.** Reopening does not sync the work directory either:
  `GenerationRuns.UnknownOutcomeIsUncertain`. A publication is crash atomic exactly when no
  switch is left without its sync since the last crash: `GenerationRuns.RunAtomicExactly`.
- **Generation numbers.** Between the directory rename and the sync of the generations
  directory a number is taken, but a crash can free it: `GenerationRuns.NumberCanBeLost`. It
  is used up for good exactly from that sync on, whatever happens to the publication after
  it: `GenerationRuns.NumberIsSpentExactly`, `GenerationRuns.SpentNumbersAreNotReused`.
- **At most one execution.** Nothing syncs the entry of the ledger directory itself. Until
  something else does, a machine crash can lose the whole ledger and let a mutation run
  again: `DaemonRuns.LostLedgerRepeats`. An executed mutation can be executed again exactly
  when that entry is not durable at its execution: `DaemonRuns.RepeatsExactly`. The same
  condition decides whether the record of a success, or a record in doubt, can still be lost:
  `DaemonRuns.SuccessStaysExactly`, `DaemonRuns.DoubtStaysExactly`.
- **Refusals.** A refusal after reservation ends as aborted or frozen exactly when the
  settlement reaches the record or the second exclusive create reports that the record
  exists: `Gateway.UnlatchedRefusal`, `Gateway.RefusalHasTwoOutcomes`. A process that still
  admits mutations sees only terminal records exactly when all its refusals did:
  `DaemonRuns.WritableMeansAllTerminal`.
- **Rollback.** Removing a file whose directory is absent counts as a failed rollback, and as
  a failed second try, although nothing was lost: `Apply.StrandsNothingLost`. With working
  repairs every file is restored anyway, and there is a leftover exactly when the failing
  operation is a deletion below a missing directory or a write that could not make one:
  `Apply.StagedRoot.ApplyBatch`.
- **Receipts.** A receipt is issued whatever its length, but one whose token is longer than
  65536 characters never opens. Two paths of control characters, which JSON spells with six
  bytes each, make one: `CleanupSample.LongReceiptIsIssued`. A token opens exactly up to that
  length: `Cleanup.IssuedTokenAuthorizes`.

## Model

| member | source | states |
|---|---|---|
| Framing.FramesAreUniquelyDecodable | crates/bullet-git-types/src/lib.rs:131-139 | a framed buffer determines its fields, whatever bytes they hold |
| Framing.FrameAllUnframe | crates/bullet-git-types/src/lib.rs:131-139 | every buffer that reads as frames is the framing of what it reads as |
| Framing.UnframeFrameAll | crates/bullet-git-types/src/lib.rs:131-139 | reading a framed buffer gives the fields back |
| Framing.FramedBuffer | crates/bullet-git-types/src/lib.rs:141-149 | the appending loop builds the framing of all fields |
| Framing.FramedDigestBinds | crates/bullet-git-types/src/lib.rs:141-149 | equal framed digests mean equal field lists, or the two framings collide |
| Framing.ApartDoNotCollide | crates/bullet-git-types/src/lib.rs:141-149 | a collision is shown exactly when the digest does not tell the two preimages apart |
| Names.BatchNameExact | crates/bullet-git-journal/src/storage.rs:257-272 | a name parses to a range exactly when it is the name of that range and both ends fit 64 bits |
| Names.GenerationNameExact | crates/bullet-git-workspace/src/tree_copy.rs:127-132 | a name parses to a generation exactly when it is that generation's name; staging names never do |
| Names.FromHexToHex | crates/bullet-git-types/src/lib.rs:82-110 | decoding the hexadecimal text of a digest gives the digest back |
| Names.DigestNameExact | crates/bullet-git-types/src/lib.rs:82-110 | exactly the hexadecimal texts of digests are digest names |
| Journal.HeadBindsChain | crates/bullet-git-journal/src/storage.rs:148-231 | two well-formed chains with one head checksum are equal batch by batch, or two of their batches collide |
| Journal.BatchPreimageInjective | crates/bullet-git-journal/src/storage.rs:202-231 | a checksum preimage determines the previous checksum and every field of every operation |
| Journal.CheckpointBindsHistory | crates/bullet-git-journal/src/lib.rs:136-188 | one checkpoint digest means one operation history and one Git tree, or a collision |
| Journal.TreeBindsOps | crates/bullet-git-journal/src/lib.rs:136-160 | one journal root means one operation sequence, or a collision |
| Journal.LinkedExactly | crates/bullet-git-journal/src/storage.rs:148-231 | a chain is linked exactly when every batch starts after all operations before it, names the checksum before it, numbers its operations without a gap, and every operation has a path and contents that suit its kind |
| Journal.CheckpointEndsAtLength | crates/bullet-git-journal/src/lib.rs:136-188 | the checkpoint of a linked chain ends at the number of its operations |
| JournalStore.LoadBatches | crates/bullet-git-journal/src/storage.rs:47-88 | in any enumeration order, loading succeeds exactly when the directory stores a contiguous chain that leaves a sequence number unused, and returns that chain's operations and head |
| JournalStore.TempNameExact | crates/bullet-git-journal/src/storage.rs:274-296 | exactly the names of a range, process, checksum and attempt are passed over as staging |
| JournalStore.StoredChainIsUnique | crates/bullet-git-journal/src/storage.rs:47-88 | a directory stores at most one linked chain |
| JournalStore.FullJournalDoesNotLoad | crates/bullet-git-journal/src/storage.rs:79-86 | a directory that stores a linked chain stores a loadable one if and only if the next sequence number fits 64 bits |
| JournalStore.SameHeadSameBatches | crates/bullet-git-journal/src/storage.rs:47-88 | two directories that load with one head hold the same batch files, or two batches collide |
| JournalStore.AppendExtends | crates/bullet-git-journal/src/durable.rs:117-151 | an append extends the linked chain and its operations by exactly the numbered mutations |
| JournalStore.LongestAppendDoesNotReload | crates/bullet-git-journal/src/durable.rs:117-151 | the failing input: a batch that ends at 2^64 - 1 is accepted by the append, and no directory that stores it loads |
| JournalStore.StoredIsBacked | crates/bullet-git-journal/src/storage.rs:47-88 | whatever a directory backed by a chain loads as lies between the durable part of that chain and all of it |
| JournalWriter.PublishIsPublished | crates/bullet-git-journal/src/storage.rs:91-127 | whatever calls fail, every state on the way holds nothing but the old chain, the whole batch and staging; success makes all of it durable, a refusal shows the old chain, an unknown outcome shows the batch without making it durable |
| JournalWriter.PublishVisible | crates/bullet-git-journal/src/storage.rs:91-127 | a refused publication shows the old history; success or an unknown outcome shows the whole batch |
| JournalWriter.AppendAnswersExactly | crates/bullet-git-journal/src/durable.rs:117-151 | a batch can be appended exactly when it is not empty, its paths have no NUL and the numbers fit 64 bits; publishing it succeeds, fails or ends unknown exactly by which calls work |
| JournalWriter.DurableJournal.PublishBatch | crates/bullet-git-journal/src/storage.rs:91-127 | the disk passes through exactly the states of that publication, from a free staging name; none is found exactly when every name tried is in use |
| JournalWriter.DurableJournal.AppendBatch | crates/bullet-git-journal/src/durable.rs:117-151 | memory extends by the batch exactly when publication succeeds, and always mirrors a linked chain |
| JournalWriter.DurableJournal.RecordBatch | crates/bullet-git-journal/src/durable.rs:103-115 | disk and memory move exactly as the append that the runs of `JournalRuns` are made of; any error stops the writer, and a stopped writer touches nothing |
| JournalRuns.AppendAtomicExactly | crates/bullet-git-journal/src/storage.rs:91-127 | an append is crash atomic wherever it stops if and only if no visible batch can still be lost when it starts |
| JournalRuns.UncertainExactly | crates/bullet-git-journal/src/durable.rs:90-115 | over every run, some visible batch can be lost exactly when an append ended unknown, or died between link and sync, since the last directory sync or crash |
| JournalRuns.RunAppendAtomicExactly | crates/bullet-git-journal/src/durable.rs:90-151 | in every state of every run the next append is crash atomic exactly when no such append is left |
| JournalRuns.AcknowledgedStays | crates/bullet-git-journal/src/durable.rs:103-115 | a batch whose append reported success is part of everything loaded later, over failed and unknown appends, deaths, crashes and reopenings |
| JournalRuns.LoadsExactly | crates/bullet-git-journal/src/storage.rs:47-88 | in every reachable state one chain explains the directory, and it loads exactly as the visible part of that chain when that part has no gap and leaves a sequence number |
| JournalRuns.CertainRunsReload | crates/bullet-git-journal/src/storage.rs:47-145 | a run in which every append starts with nothing uncertain can reload its journal in every state |
| JournalRuns.UnknownAppendCanLoseTheJournal | crates/bullet-git-journal/src/storage.rs:121-145 | the failing input: an unknown append, a reopening and a second append that stops after its link can crash into a directory that holds the second batch without the first and never loads |
| Cas.AddressBinds | crates/bullet-git-workspace/src/cas.rs:157-167 | contents with one storage digest are equal or their preimages collide |
| Cas.PutIsSafe | crates/bullet-git-workspace/src/cas.rs:157-224 | whatever calls fail, every state holds only whole objects under their digests and keeps what was durable; success is durable; errors other than unknown leave the objects as they were |
| Cas.PutAnswersExactly | crates/bullet-git-workspace/src/cas.rs:157-224 | for every set of failing calls, exactly when a put is too large, finds a corrupt object, fails or ends unknown |
| Cas.StagingNameExact | crates/bullet-git-workspace/src/cas_io.rs:46-60 | exactly the names of an object, process and counter are staging names |
| Cas.PutSucceedsExactly | crates/bullet-git-workspace/src/cas.rs:157-224 | with working calls a put into a sound store succeeds exactly when the bytes fit an object and a staging name is found where one is needed, and leaves no staging behind |
| Cas.LinkTargetIsFree | crates/bullet-git-workspace/src/cas.rs:193-224 | with one writer the object's name is free when a put comes to link it, so the branch for an existing name is never taken |
| Cas.AlwaysReopens | crates/bullet-git-workspace/src/cas.rs:246-285 | no run of puts, deaths and crashes leaves an entry that the recovery scan refuses |
| Cas.AcknowledgedObjectsPersist | crates/bullet-git-workspace/src/cas.rs:119-224 | a put that returned success reads back with the same bytes in every later state of every run, or two objects collide |
| CasStore.ValidateEntries | crates/bullet-git-workspace/src/cas.rs:246-285 | the scan accepts exactly the directories whose every entry is a read-only regular file under the text of its digest, or a bounded regular file under the name of a staged put, in any order |
| CasStore.OpenCas | crates/bullet-git-workspace/src/cas.rs:119-133 | opening succeeds exactly on an accepted directory that syncs, and leaves it synced |
| CasStore.ImmutableCas.GetObject | crates/bullet-git-workspace/src/cas.rs:146-155 | a poisoned instance answers nothing; otherwise bytes come back exactly from a read-only regular file of bounded size with that digest, absence is told apart, and anything else is corrupt |
| CasStore.ImmutableCas.PutBytes | crates/bullet-git-workspace/src/cas.rs:157-244 | a poisoned instance touches nothing; otherwise the disk follows the safe put, no staging name is found exactly when all are in use, and exactly an unknown outcome poisons |
| Generations.ManifestBinds | crates/bullet-git-workspace/src/generation.rs:248-269 | one manifest digest means one identity, generation, parent and checkpoint digest, or a collision |
| Generations.LineageBinds | crates/bullet-git-workspace/src/generation.rs:279-318 | stores whose active manifests agree have lineages equal in every body, or a collision is exhibited |
| Generations.LineageDecreases | crates/bullet-git-workspace/src/generation.rs:279-318 | generations strictly decrease along an accepted lineage, down to 0 |
| Generations.ValidateLineage | crates/bullet-git-workspace/src/generation.rs:279-318 | the walk ends and accepts exactly the manifests with a complete ancestry on disk |
| Generations.LineageExactly | crates/bullet-git-workspace/src/generation.rs:279-318 | a lineage, link by link: every manifest names the next by number and digest, which is smaller, genuine and on disk, down to generation 0 |
| Generations.InspectEntries | crates/bullet-git-workspace/src/tree_copy.rs:109-125 | the shape check accepts exactly directories named as generations or staging |
| Generations.NextGeneration | crates/bullet-git-workspace/src/tree_copy.rs:90-107 | the next number exceeds every visible one by exactly one step, and is refused only at the largest 64-bit number |
| Generations.Open | crates/bullet-git-workspace/src/generation_store.rs:6-39 | reopening answers exactly when some manifest satisfies every check, and with that manifest |
| Generations.OpensExactly | crates/bullet-git-workspace/src/generation_store.rs:6-39 | a store opens as a manifest exactly when the active pointer is the sealed pointer to it, it is genuine and on disk with repository, journal and lineage, and the generations directory holds nothing else |
| Generations.NewManifestExactly | crates/bullet-git-workspace/src/generation.rs:84-112 | a manifest can be made exactly for a genuine checkpoint with a Git tree, and says what it was made of |
| GenerationPublish.CrashOpens | crates/bullet-git-workspace/src/generation_store.rs:87-134 | after any crash a volume opens as one of the lineages its pointer could name, and then can name no other |
| GenerationPublish.BeforeSwitch | crates/bullet-git-workspace/src/generation_store.rs:104-121 | up to the pointer rename, what the pointer can name and does name is unchanged |
| GenerationPublish.AfterSwitch | crates/bullet-git-workspace/src/generation_store.rs:122-134 | from the rename the next generation is visible with its whole lineage durable, and the last sync leaves no other |
| GenerationRuns.CrashAtomicity | crates/bullet-git-workspace/src/generation_store.rs:87-134 | wherever a publication stops, any crash reopens as exactly the prior or the next complete generation; an I/O error means the prior, success the next |
| GenerationRuns.ReopensWithoutCrash | crates/bullet-git-workspace/src/generation_store.rs:87-134 | without a crash the store reopens as the prior generation up to the switch and the next from it |
| GenerationRuns.AtomicExactly | crates/bullet-git-workspace/src/generation_store.rs:6-39 | a publication is crash atomic if and only if the pointer is certain when it starts |
| GenerationRuns.UnknownOutcomeIsUncertain | crates/bullet-git-workspace/src/generation_store.rs:122-130 | after an unknown outcome a reopen shows the next generation, yet a crash can still bring the prior one back |
| GenerationRuns.NextTracks | crates/bullet-git-workspace/src/generation_store.rs:87-134 | one event leaves the pointer with lineages it could name before or with what its own attempt added, all of them durable; a completed publication leaves only its own |
| GenerationRuns.AcknowledgedGenerationsPersist | crates/bullet-git-workspace/src/repository_publish.rs:176-207 | once a publication returned success, every later state of every run opens as that generation or a descendant, contents unchanged |
| GenerationRuns.AlwaysReopens | crates/bullet-git-workspace/src/generation_store.rs:6-39 | no run of staging, failed publications, deaths and crashes leaves a volume that does not open |
| GenerationRuns.AcknowledgedNumbersAreNotReused | crates/bullet-git-workspace/src/tree_copy.rs:90-107 | an acknowledged number is never given out again and its directory keeps its contents |
| GenerationRuns.NumberIsUsedExactly | crates/bullet-git-workspace/src/generation_store.rs:104-113 | without a crash a publication's number is taken exactly from the directory rename on |
| GenerationRuns.NumberCanBeLost | crates/bullet-git-workspace/src/generation_store.rs:104-113 | the failing input: up to the sync of the generations directory some crash frees the number again |
| GenerationRuns.NumberIsSpentExactly | crates/bullet-git-workspace/src/generation_store.rs:104-113 | the number stays taken after every crash if and only if the publication got past the sync of the generations directory |
| GenerationRuns.SpentNumbersAreNotReused | crates/bullet-git-workspace/src/tree_copy.rs:90-107 | a number whose attempt got that far, whether it succeeded, failed, died or ended unknown, is taken in every later state of every run and never handed out again |
| GenerationRuns.TakenUntilCrash | crates/bullet-git-workspace/src/tree_copy.rs:90-107 | a number that is taken stays taken until a crash |
| GenerationRuns.PointerCertainExactly | crates/bullet-git-workspace/src/generation_store.rs:122-134 | over every run from a bootstrapped store the pointer is certain exactly when no switch is left without its sync since the last crash |
| GenerationRuns.RunAtomicExactly | crates/bullet-git-workspace/src/generation_store.rs:87-134 | in every state of every run the next publication is crash atomic exactly when no earlier switch is left without its sync since the last crash |
| GenerationRuns.BootstrapEstablishes | crates/bullet-git-workspace/src/generation.rs:213-232 | a finished bootstrap has a certain pointer that names the root alone, which is where every run theorem starts |
| GenerationStore.Store.StageGeneration | crates/bullet-git-workspace/src/generation_store.rs:65-77 | staging succeeds exactly when a number and a staging name are left, and copies the active repository and journal under a free name with the next number, touching nothing else |
| GenerationStore.Store.PublishWith | crates/bullet-git-workspace/src/generation_store.rs:87-134 | whichever calls fail, the volume stops after exactly the steps before the first failure, the error says which case it is, and memory follows only success |
| GenerationStore.CompletedExactly | crates/bullet-git-workspace/src/generation_store.rs:87-134 | a publication stops exactly at its first failing call, succeeds exactly when none fails, and is unknown exactly when the last sync alone does |
| TreeSync.SyncedTreeWithstandsCrashes | crates/bullet-git-workspace/src/tree_copy.rs:55-88 | a tree withstands every crash exactly when all of it is durable, and a completed sync makes it so without changing it |
| TreeSync.CrashOfTreeIsCrashOfItem | crates/bullet-git-workspace/src/tree_copy.rs:55-88 | every crash of a staged tree is a crash of the one entry that publication takes it for, synced exactly when all of it is durable |
| Ledger.ScanRecovery | crates/bullet-gitd/src/mutation_recovery.rs:86-119 | an opened ledger is writable exactly with at most 4096 entries, each a well-formed record under its own name ending in Committed or Aborted; it names exactly the records in doubt, with their doubt, and is corrupt exactly when some entry is |
| Ledger.ValidSubjectExactly | crates/bullet-gitd/src/mutation_ledger.rs:99-121 | exactly these subjects are valid: digests in hexadecimal, ids of their kind, counters in range |
| Ledger.LoadRecordExactly | crates/bullet-gitd/src/mutation_recovery.rs:136-220 | exactly two contents read as a record: one reservation, or a reservation and its settlement |
| Ledger.ReserveKeeps | crates/bullet-gitd/src/mutation_ledger_store.rs:83-131 | records are never removed or changed by a reservation, nothing becomes less durable, the latch never opens, and a fresh answer comes exactly for an id without a record when every call works, with a durable record |
| Ledger.ReserveAnswersExactly | crates/bullet-gitd/src/mutation_ledger_store.rs:83-131 | a reservation replays exactly the result of a record of this very subject, and conflicts exactly with another subject |
| Ledger.SettleKeeps | crates/bullet-gitd/src/mutation_ledger_store.rs:135-197 | a settlement changes only an in-flight record that this process reserved, and success means the record says exactly what was asked |
| Ledger.SettleAnswersExactly | crates/bullet-gitd/src/mutation_ledger_store.rs:135-197 | a settlement succeeds exactly for a readable in-flight record that this process reserved when the append is reported, replays exactly a record that says the same, and conflicts exactly with any other |
| Ledger.SettleKeepsFirm | crates/bullet-gitd/src/mutation_ledger_store.rs:135-197 | a settlement takes no durability away, except from its own record together with a change of its contents |
| LedgerBytes.LoadBytes | crates/bullet-gitd/src/mutation_recovery.rs:136-220 | loading a record depends only on its bytes, not on how the reader cuts them |
| LedgerBytes.TornAppendIsAllOrNothing | crates/bullet-gitd/src/mutation_ledger.rs:173-179 | whatever part of an event reaches a record, it reads as before, as unreadable, or with the whole event, the last exactly when at most the newline is missing |
| Gateway.SettleThroughDecides | crates/bullet-gitd/src/authority_gateway/gateway.rs:290-359 | a settlement that fails freezes the ledger exactly when it got to the record, and otherwise changes nothing |
| Gateway.SettleSucceedsExactly | crates/bullet-gitd/src/authority_gateway/gateway.rs:290-359 | the settlement of an outstanding reservation succeeds exactly when clock and digest are acceptable, the acknowledgment is equal in every bound field, the record can be read and the append is reported |
| Gateway.RefusalHasTwoOutcomes | crates/bullet-gitd/src/authority_gateway/gateway.rs:234-256 | after a refusal the record is durably Aborted or the ledger is frozen, if and only if the settlement decided or the second create reported the record |
| Gateway.UnlatchedRefusal | crates/bullet-gitd/src/authority_gateway/gateway.rs:234-256 | the failing input: a refusal whose clock fails and whose second create fails otherwise leaves the record in flight and the ledger writable |
| Gateway.SuccessIsBacked | crates/bullet-gitd/src/daemon.rs:285-340 | success has a durable Committed record with the digest of that payload and, online, an acknowledgment equal in every bound field; every error freezes the daemon |
| Gateway.FinishSucceedsExactly | crates/bullet-gitd/src/daemon.rs:285-340 | finishing succeeds exactly when the repository succeeded, its payload encodes, and the settlement as Committed succeeds |
| DaemonRuns.AtMostOneExecution | crates/bullet-gitd/src/authority_gateway/gateway.rs:97-117 | over every run with deaths, torn appends, restarts and machine crashes, no mutation id is executed twice, unless a crash in between found the entry of the ledger directory itself not durable |
| DaemonRuns.RepeatsExactly | crates/bullet-gitd/src/authority_gateway/gateway.rs:97-117 | from the moment an id is executed, some continuation of the run executes it again if and only if the entry of the ledger directory is not durable then |
| DaemonRuns.LostLedgerRepeats | crates/bullet-gitd/src/mutation_ledger_store.rs:47-66 | the failing input: with a ledger directory never synced into its parent, a crash between two requests lets one mutation be executed twice |
| DaemonRuns.SuccessStaysBacked | crates/bullet-gitd/src/daemon.rs:285-340 | in every later world of the run the record of a success still says Committed with that digest, unless a crash found the entry of the ledger directory itself not durable |
| DaemonRuns.SuccessStaysExactly | crates/bullet-gitd/src/daemon.rs:285-340 | from the moment of a success, its record stands in every continuation of the run if and only if the entry of the ledger directory is durable then |
| DaemonRuns.FreezeIsAbsorbing | crates/bullet-gitd/src/mutation_recovery.rs:86-119 | once a record is in doubt and no process can resolve it, nothing is ever executed and without a crash the directory never changes; a crash changes nothing of this when record and directory are durable |
| DaemonRuns.DoubtStaysExactly | crates/bullet-gitd/src/mutation_recovery.rs:86-119 | a record in doubt that no process can resolve is unchanged in every continuation if and only if record and directory entry are durable; then no continuation executes anything |
| DaemonRuns.ErrorStopsDaemon | crates/bullet-gitd/src/daemon.rs:202-210 | after an error from finishing, the process executes nothing more until it ends |
| DaemonRuns.FreshProcessGrantsExactly | crates/bullet-gitd/src/mutation_ledger_store.rs:47-109 | a fresh process grants a permit exactly on a terminal ledger within bounds, for a valid id without a record, when the calls work |
| DaemonRuns.WritableMeansAllTerminal | crates/bullet-gitd/src/authority_gateway/gateway.rs:165-186 | in every state of every run, a process that would admit a mutation sees only terminal records if and only if it latched or decided every refusal of its own |
| LedgerStore.MutationLedger.constructor | crates/bullet-gitd/src/mutation_ledger_store.rs:47-66 | a reopened ledger owns nothing, and its latch is what the directory says |
| LedgerStore.LedgerDirectory.Crash | crates/bullet-gitd/src/mutation_ledger_store.rs:47-131 | a machine crash of the directory is a crash of its run |
| LedgerStore.MutationLedger.ReserveId | crates/bullet-gitd/src/mutation_ledger_store.rs:83-131 | the object's files, durability, ownership and latch move exactly as the reservation that the run theorems are about |
| LedgerStore.MutationLedger.SettleId | crates/bullet-gitd/src/mutation_ledger_store.rs:135-197 | the object's files, durability, ownership and latch move exactly as the settlement that the run theorems are about |
| LedgerStore.MutationLedger.SettleMutation | crates/bullet-gitd/src/authority_gateway/gateway.rs:290-323 | the ledger moves exactly as the settlement that `SettleThroughDecides` is about |
| LedgerStore.MutationLedger.AbortBeforeRepository | crates/bullet-gitd/src/authority_gateway/gateway.rs:234-256 | the ledger moves exactly as the abort that `RefusalHasTwoOutcomes` is about |
| LedgerStore.Daemon.constructor | crates/bullet-gitd/src/daemon.rs:120-135 | a new process over a directory continues that directory's run |
| LedgerStore.Daemon.Die | crates/bullet-gitd/src/daemon.rs:120-135 | a process that ends leaves the directory to the next one, as one step of the run |
| LedgerStore.Daemon.Recover | crates/bullet-gitd/src/authority_gateway/gateway.rs:165-186 | the ledger is opened once, as one step of the run, and admits mutations exactly when the directory has at most 4096 records, all terminal, or the open latch says so |
| LedgerStore.Daemon.Authorize | crates/bullet-gitd/src/authority_gateway/gateway.rs:53-118 | the ledger is asked exactly when this process admits mutations and the decision agrees with the request in operation, fingerprint and request digest and with the writer in attempt, fence and nonce; a permit is granted exactly for a fresh answer before its deadline and at most one second ahead of it; every call extends the directory's run |
| LedgerStore.Daemon.Grant | crates/bullet-gitd/src/authority_gateway/gateway.rs:97-118 | a reservation outside its window is refused again through the abort, and nothing is left permitted |
| LedgerStore.Daemon.AuthorizeByReceipt | crates/bullet-gitd/src/authority_gateway/gateway.rs:127-151 | the ledger is asked exactly when this process admits mutations and the clock and deadline fit 64 bits; a fresh answer gives a permit, a settled record its result, anything else neither |
| LedgerStore.Daemon.Consume | crates/bullet-gitd/src/authority_gateway/gateway.rs:217-232 | a permit is consumed exactly when operation, request and deadline still hold; what is consumed was never executed before by any process over this directory, while every crash found the directory's entry durable |
| LedgerStore.Daemon.Complete | crates/bullet-gitd/src/daemon.rs:285-340 | the call is one finishing step of the run; it answers success exactly when the result is Ok and encodes, and clock, acknowledgment, read and append work; anything else freezes the daemon |
| Receipts.OneDeletionPerReceipt | crates/bullet-gitd/src/authority_gateway/gateway.rs:127-151 | over every run, one sealed receipt and writer reach execution at most once, whatever else the requests carry, unless a crash in between found the entry of the ledger directory itself not durable |
| Receipts.DeletesAgainExactly | crates/bullet-gitd/src/authority_gateway/gateway.rs:127-151 | once a receipt's cleanup is executed, some continuation executes one under the same receipt and writer again, whatever its request carries, if and only if the entry of the ledger directory is not durable then |
| Receipts.LaterRequestReplaysOrConflicts | crates/bullet-gitd/src/authority_gateway/gateway.rs:368-402 | a later request under a settled receipt replays the durable result exactly when its subject is unchanged, and otherwise conflicts |
| Receipts.SubjectsAgreeExactly | crates/bullet-gitd/src/authority_gateway/gateway.rs:368-402 | two requests under one receipt have one subject exactly when they agree in token digest, fingerprint, repository, workspace and generation |
| Receipts.SubjectIsValidExactly | crates/bullet-gitd/src/authority_gateway/gateway.rs:368-402 | the subject of a cleanup is valid exactly when receipt and request name what they should |
| Receipts.MutationIdBinds | crates/bullet-gitd/src/authority_gateway/gateway.rs:368-402 | one derived id means one receipt, attempt, fence and nonce, or a collision |
| Receipts.ReplayReturnsCommittedPayload | crates/bullet-gitd/src/daemon_handlers.rs:285-330 | what a replay returns is the payload that was committed, or two payloads collide |
| Receipts.ReplayAnswersExactly | crates/bullet-gitd/src/daemon_handlers.rs:285-330 | a replay refuses exactly what was aborted, freezes exactly on an unknown outcome, returns exactly a payload that reproduces the committed digest, and otherwise conflicts |
| Receipts.ReplayDigestAgrees | crates/bullet-gitd/src/daemon_handlers.rs:316-322 | the digest that a replay writes out is the digest of a committed cleanup |
| Receipts.ResultDigestBinds | crates/bullet-gitd/src/daemon_handlers.rs:308-323 | one result digest means one operation, one outcome and one payload, or a collision |
| Protocol.Reader.ReadFrame | crates/bullet-gitd/src/protocol.rs:59-90 | however the stream is cut into chunks, one read gives the whole stream's first frame, bound refusal or end, and progresses |
| Protocol.Reader.ReadAll | crates/bullet-gitd/src/protocol.rs:59-90 | repeated reads give the same frames and refusal as splitting the whole stream at newlines |
| Protocol.FramesRoundTrip | crates/bullet-gitd/src/protocol.rs:59-90 | splitting what was written frame by frame gives the frames back |
| Protocol.WrittenFrameReads | crates/bullet-gitd/src/protocol.rs:59-90 | a written frame reads back, with or without its newline at the end, and is refused exactly when it is too long or no text |
| Paths.CoverageAgrees | crates/bullet-git-workspace/src/scope.rs:68-78 | on all strings, segment-wise coverage holds exactly when the path equals the grant or extends it after a slash |
| Paths.PermitsAgrees | crates/bullet-git-types/src/change_candidate.rs:211-233 | the writer's scope check and the Candidate's agree for all grants and paths |
| Paths.WriteSetWithinGrant | crates/bullet-git-types/src/change_candidate.rs:211-233 | the write set passes exactly when the writer would admit every path, and otherwise the first refused path is named |
| Paths.NormalizeRelPath | crates/bullet-git-workspace/src/scope.rs:16-39 | exactly the relative paths without backslash, NUL, empty segments, dots, `.git` in any case, colons and trailing dots or spaces are accepted, unchanged beyond normalisation |
| Paths.ForecastConflicts | crates/bullet-git-workspace/src/advisers.rs:16-40 | the forecast is empty exactly when all paths together form an antichain, and names exactly the paths that come after one they overlap |
| Proposal.Validate | crates/bullet-git-types/src/proposal.rs:129-187 | a proposal is accepted exactly when schema, counts, gates, bounds and preimages hold and the folded paths form an antichain; no two accepted paths are alike up to the fold, and the bytes written stay within bounds |
| Proposal.AlikeShareKey | crates/bullet-git-types/src/proposal.rs:145-186 | paths alike letter by letter up to the fold share a key, and only they do where every character folds to one |
| Proposal.AdmissiblePathsAreAntichain | crates/bullet-git-types/src/proposal.rs:145-186 | the raw paths of an accepted proposal form an antichain, for every fold that keeps the slash |
| Proposal.ValidateBatch | crates/bullet-git-workspace/src/patch.rs:59-116 | a raw batch is accepted exactly when scope, bounds, distinct folded paths and existing deletions hold, with its normalised paths; then every path is escape-free and granted, no two are alike up to the fold, and bounds hold |
| Proposal.NestedBatchIsAdmitted | crates/bullet-git-workspace/src/patch.rs:59-116 | a raw batch with one path inside another is accepted |
| FileTree.ActsAtOnce | crates/bullet-git-workspace/src/apply.rs:62-78 | on an antichain a batch applies exactly when each operation applies to the original tree, and every path ends as if all acted at once |
| FileTree.OrderDoesNotMatter | crates/bullet-git-workspace/src/apply.rs:62-78 | all orders of an antichain succeed or fail alike and give one tree |
| FileTree.ProposalOrderDoesNotMatter | crates/bullet-git-types/src/proposal.rs:145-186 | all permutations of a validated proposal succeed or fail alike on every tree and give one tree |
| FileTree.DisjointWritesCommute | crates/bullet-git-workspace/src/advisers.rs:51-63 | write sets with an empty forecast commute on every tree |
| Apply.StagedRoot.Read | crates/bullet-git-workspace/src/apply/dirfd_stage.rs:17-32 | a read gives the file's contents or nothing exactly where no file or directory is in the way |
| Apply.StagedRoot.EnsureFolders | crates/bullet-git-workspace/src/apply/dirfd_stage.rs:177-205 | only missing directories of the path are made, a clash leaves the tree untouched, and the exact directory whose making failed is told |
| Apply.StagedRoot.Write | crates/bullet-git-workspace/src/apply/dirfd_stage.rs:34-56 | success gives the tree the write denotes; any failure changes at most this file and directories above it |
| Apply.StagedRoot.Unlink | crates/bullet-git-workspace/src/apply/dirfd_stage.rs:58-93 | success removes exactly a file; failures change nothing and tell absence from clashes |
| Apply.StagedRoot.Restore | crates/bullet-git-workspace/src/apply/dirfd_stage.rs:95-125 | whatever fails, every file without a failure has its recorded contents; with working calls all files have, and there are failures exactly when the directory of some recorded path is absent |
| Apply.StagedRoot.ApplyEach | crates/bullet-git-workspace/src/apply.rs:62-78 | whatever fails, taking the record back newest first gives the original files; success gives the tree that the operations denote; a recorded path lacks its directory exactly when the operation that stopped the batch strands |
| Apply.StagedRoot.ApplyBatch | crates/bullet-git-workspace/src/apply.rs:29-60 | after a failure every file not named in the leftover is as before and the leftover holds the original contents; with working repairs on an antichain all files are as before, and the leftover is empty if and only if the failing operation does not strand |
| Apply.StagedRoot.RestoreAll | crates/bullet-git-workspace/src/apply.rs:88-112 | a second restore without failures leaves every file as before the batch; with working calls it succeeds exactly when every leftover path has its directory |
| Apply.StrandsNothingLost | crates/bullet-git-workspace/src/apply/dirfd_stage.rs:127-135 | the failing inputs: a write that cannot make its directory, and a deletion below a missing one, leave an entry that cannot be restored although no file changed |
| History.ValidateObjects | crates/bullet-git-workspace/src/repository_helpers.rs:122-142 | the check passes exactly when every digest in the journal resolves |
| History.BatchReplays | crates/bullet-git-workspace/src/repository_publish.rs:73-109 | over any store that holds its contents, a batch's record replays forwards to the patched files and backwards to the originals |
| History.ApplyPatches | crates/bullet-git-workspace/src/apply.rs:62-78 | applying a batch to a tree patches its files one operation after another |
| History.ValidatedBatch | crates/bullet-git-workspace/src/patch.rs:59-116 | a validated batch is unfit for publication only when the journal cannot carry one of its paths; a write may make a new file |
| WorkspaceRuns.BuiltIsFaithful | crates/bullet-git-workspace/src/repository_publish.rs:48-109 | a generation built from one whose objects are durable and whose journal replays both ways has both properties too; replay only up to two contents that share a digest |
| WorkspaceRuns.HistoryIsInvertible | crates/bullet-git-workspace/src/repository_publish.rs:48-207 | in every state of every run with failures, deaths, crashes and reopenings, the store and some generation open; whichever generation opens, every digest of its journal is durable in the store, and the journal leads from the clone's files to its files and back, or two contents share a digest |
| Repository.RecordStaged | crates/bullet-git-workspace/src/repository_publish.rs:54-68 | recording succeeds exactly when the journal loads, takes the batch and the calls work; then the staged journal is the loaded chain extended by exactly this batch |
| Repository.BuildStage | crates/bullet-git-workspace/src/repository_publish.rs:54-68 | what is staged is the active generation with the batch applied to its tree and appended to its journal; with working calls on the tree, staging succeeds exactly when the batch applies and can be recorded |
| Repository.Writer.FillStage | crates/bullet-git-workspace/src/repository_publish.rs:54-67 | the staged copy becomes what was built, as one step of the run, and every object of its journal reads back; with working calls this succeeds exactly when the batch applies and can be recorded |
| Repository.Writer.constructor | crates/bullet-git-workspace/src/generation_store.rs:6-39 | opening store and generation continues the workspace's run |
| Repository.Writer.PrepareMutations | crates/bullet-git-workspace/src/repository_publish.rs:73-109 | contents before and after each operation are put in order up to the first failure, each put one step of the run, and the records name exactly them; with working calls and room every put succeeds |
| Repository.Writer.SwitchTo | crates/bullet-git-workspace/src/repository_publish.rs:176-207 | the switch is one publishing step of the run, succeeds exactly when a manifest can be made and every call works, and the writer goes on exactly unless the outcome is unknown |
| Repository.Writer.PublishPatches | crates/bullet-git-workspace/src/repository_publish.rs:9-71 | whatever fails, the call extends the run of the workspace; it refuses exactly when two operations share a path, a deletion names a missing file or a path does not round-trip, and with working calls succeeds exactly when the batch applies, can be recorded, and a number and a manifest are left; a failure leaves the active generation, success makes active what was built from it, and an unknown outcome stops the writer |
| Repository.Writer.ApplyChange | crates/bullet-git-workspace/src/repository_ops.rs:23-33 | a raw change is refused exactly when validation against the active files refuses it or the journal cannot carry a path; success makes active the generation built from the validated batch |
| Repository.Writer.ValidatePatches | crates/bullet-git-workspace/src/repository_guards.rs:36-48 | the batch is validated against the files of the active generation |
| Artifact.FlattenInjective | crates/bullet-git-workspace/src/preservation_io.rs:209-265 | the hashed records determine the tree, although directories have no closing mark |
| Artifact.StreamInjective | crates/bullet-git-workspace/src/preservation_io.rs:209-276 | a stream of self-delimiting records determines them |
| Artifact.RecordsAreSelfDelimiting | crates/bullet-git-workspace/src/preservation_io.rs:227-276 | no record's bytes begin another's, although file contents are not framed |
| Artifact.ArtifactDigestBinds | crates/bullet-git-workspace/src/preservation_io.rs:201-265 | one artifact digest means one tree in names, kinds, modes, contents and targets, or a collision |
| Artifact.HashEntries | crates/bullet-git-workspace/src/preservation_io.rs:209-265 | the recursive walk feeds exactly the stream of the tree's records |
| Preservation.LoadJournal | crates/bullet-git-workspace/src/preservation_cleanup.rs:47-54 | a preserved generation's journal is loaded from its directory tree exactly as a journal directory is |
| Preservation.ScanStore | crates/bullet-git-workspace/src/preservation_cleanup.rs:55-55 | the preserved content store is accepted exactly when every entry is a whole object or bounded staging |
| Preservation.ReadOnlyExactly | crates/bullet-git-workspace/src/cas_io.rs:5-38 | a mode is read-only exactly when none of its three octal digits lets anybody write |
| Preservation.VerifySalvage | crates/bullet-git-workspace/src/preservation_cleanup.rs:37-72 | an artifact passes exactly when its generation digest, journal range and root match and its own store reads back every digest |
| Preservation.ChildIsTree | crates/bullet-git-workspace/src/preservation_io.rs:201-265 | a directory of a hashable tree is a hashable tree |
| Preservation.LookupExactly | crates/bullet-git-workspace/src/preservation_cleanup.rs:37-72 | what is looked up in an artifact is what its hashed records say: a file of exactly these bytes, a directory, and no other names |
| Preservation.TokenIsCanonical | crates/bullet-git-workspace/src/preservation_bundle.rs:91-123 | exactly the canonical encoding of a receipt decodes, to that receipt |
| Preservation.SealOpensExactly | crates/bullet-git-workspace/src/preservation_bundle.rs:69-123 | a token opens as a payload exactly when it is the canonical token of that payload under the keyed digest, within the length bound |
| Preservation.OneTokenPerPayload | crates/bullet-git-workspace/src/preservation_bundle.rs:69-123 | one payload has one token with a valid seal |
| Cleanup.CaptureState | crates/bullet-git-workspace/src/repository_preservation.rs:15-39 | a workspace has exactly the state that its active generation and the journal loaded from it give |
| Cleanup.StateDigestBinds | crates/bullet-git-workspace/src/preservation_bundle.rs:83-89 | one state digest means one state, for states whose encodings fit a buffer, or two encodings collide |
| Cleanup.StateBindsWorkspace | crates/bullet-git-workspace/src/repository_preservation.rs:15-39 | two workspaces with one state agree in attempt, nonce, generation, tree and journal, or two preimages collide |
| Cleanup.PreservationAuthority.Issue | crates/bullet-git-workspace/src/preservation.rs:197-257 | a receipt is issued exactly for a complete artifact of an unchanged workspace, and then nothing lies at or below both the destination and the work or runtime directory; it seals target, destination, state and artifact under the keyed digest |
| Cleanup.OverlapExactly | crates/bullet-git-workspace/src/preservation_io.rs:281-283 | two places overlap exactly when something lies at or below both |
| Cleanup.PreservationAuthority.AuthorizeCleanup | crates/bullet-git-workspace/src/preservation.rs:260-324 | a permit is granted exactly when the token is canonical, its seal valid, the receipt was sealed for this workspace in this state, and its artifact is the same directory, complete and unchanged |
| Cleanup.IssuedTokenOpens | crates/bullet-git-workspace/src/preservation_bundle.rs:91-110 | the token of a payload that can be sealed opens if and only if it is no longer than decoding admits |
| Cleanup.IssuedTokenAuthorizes | crates/bullet-git-workspace/src/preservation.rs:260-324 | an issued token authorises the cleanup of its workspace in the sealed state if and only if it is no longer than decoding admits |
| Cleanup.LongReceiptNeverAuthorizes | crates/bullet-git-workspace/src/preservation_bundle.rs:97-110 | a receipt whose two paths take more than 32768 bytes as JSON strings never authorises anything |
| CleanupSample.LongReceiptIsIssued | crates/bullet-git-workspace/src/preservation.rs:230-257 | the failing input: with two paths of 15 segments of 255 control characters, below the 4096 bytes of a path, a receipt is issued whose token is refused for every workspace, artifact and state |
| Cleanup.PrivateClone.Revalidate | crates/bullet-git-workspace/src/preservation_cleanup.rs:74-116 | the last check passes exactly when the reopened generation and the sealed artifact are both unchanged and complete |
| Cleanup.PrivateClone.Delete | crates/bullet-git-workspace/src/clone.rs:269-324 | deletion starts exactly when the permit is for this workspace, everything still holds and the target can be inspected and is in place; before that a refusal and a failure leave the workspace untouched, and any later failure is unknown |
| Cleanup.DeletionIsSafe | crates/bullet-git-workspace/src/preservation_cleanup.rs:74-116 | when a deletion starts under an issued receipt, the artifact found is the tree that was sealed, of the state that was sealed, holds the generation being deleted and the whole journal and objects of the authorised workspace, and nothing of it lies in the deleted tree, or two preimages collide |
| Cleanup.CleanUp | crates/bullet-git-workspace/src/preservation_cleanup.rs:119-131 | from issue to deletion: a deletion starts exactly when the token authorises this workspace and everything holds again at the last check, and completes exactly when the last calls work; then everything is safely kept, or the token carries a tag on a message that the authority never tagged |
| CleanupSample.SafeCleanupHappens | crates/bullet-git-workspace/src/preservation_cleanup.rs:119-131 | under every digest and key there are a faithful codec, an issued token that opens and a workspace that passes every check, so the safety theorem speaks of deletions that happen |

## Left out

- The JSON codecs, Unicode normalisation, the case fold and the digest function: parameters, with what is assumed of them stated where it is used.
- Spawning Git, its configuration and its object ids: the tree id is data in a checkpoint.
- Sockets, peer credentials and signatures of the online checker: its answers are arbitrary values.
- Symlinks and descriptor-relative lookup under concurrent change: one writer, and no outside process edits the workspace.
- Permissions, ownership, reflinks, disk identity beyond device and inode numbers, and the seal key: operating-system facts.
- Locking of the mirror, lineage queries, Candidate manifests, proof roots and pins: field comparisons or a repeat of the framing result.
- The fixture authority and the CI tooling: not part of the production path.
- Ledger.ScanRecovery: does not state the order of the reported subjects, which follows the sorted paths.
- Proposal.Validate: states acceptance exactly and only the first refusal kind; the order in which later refusals are reported is not claimed.
- Proposal.ValidateBatch: states acceptance exactly; which refusal is reported is not claimed.
- Generations.NextGeneration: takes a directory whose entries the shape check accepts; the refusal of other entries is that check.
- GenerationStore.Store.StageGeneration: the pointer's staging name is a parameter, and copying is one step; `TreeSync` covers syncing of the copy.
- GenerationStore.Store.PublishWith: states the volume where it stops, for every set of failing calls; states in between are those where fewer calls complete.
- Cas.AlwaysReopens: takes a torn staging file to be no longer than the object bound, as no write exceeds it.
- Apply.StagedRoot.ApplyBatch: modes and directories made by a failed batch are not restored, as in the program.
- Apply.StagedRoot.RestoreAll: takes paths below the staged root, where the program spells the same paths from the file-system root.
- LedgerStore.Daemon.Consume: takes the permit that the last authorisation returned, as ownership of a permit guarantees in the program.
- WorkspaceRuns.HistoryIsInvertible: is about working files; what Git keeps beside them is not modelled.
- Repository.Writer.PrepareMutations: the records are made after the puts of all operations instead of one by one, which no state shows.
- Repository.Writer.PublishPatches: when calls fail, states what is left but not which failures still end in success; the checkpoint and whether the published journal can be read again are parameters, and a failed batch in the staged copy is dropped with the copy.
- Preservation.LoadJournal: refuses a generation without a journal directory, where the program makes an empty one inside the artifact; such an artifact has another generation digest than any workspace.
- Preservation.VerifySalvage: ownership and mode checks of the store's root are not modelled, and a subject that is a symlink is refused.
- Cleanup.PreservationAuthority.Issue: copying into the artifact enters as the tree found at the destination, and the checks in front of capturing the state are not modelled; a state or payload whose encoding takes 2^64 bytes or more is refused, where the program cannot hold it.
- Cleanup.StateDigestBinds: takes states whose encodings are shorter than 2^64 bytes, as every buffer is.
- CleanupSample.LongReceiptIsIssued: numbers are spelled as strings and field names are left out, so that real receipts are only longer.
- Cleanup.CleanUp: does not assume that the keyed digest cannot be forged; a forgery is exhibited instead.
- Artifact.HashEntries: takes entries in name order and file contents of the recorded length; sorting and changing files are not modelled.
