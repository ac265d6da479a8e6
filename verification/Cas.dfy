/** The immutable content store: whole objects under their digest, or nothing.

  `address` is the storage digest of an object's bytes.  A put stages a file,
  syncs it, links it under its digest name and syncs the directory; a failure
  after the link poisons the instance.
*/
module Cas {
  import opened Framing
  import opened Names
  import opened Text
  import opened Durability
  import opened Runs

  const MAX_OBJECT_BYTES := 1_048_576
  const CAS_DOMAIN: Bytes := Ascii("bullet-git.cas-object.v1")

  datatype Object = Object(bytes: Bytes, readOnly: bool)
  type ObjectFile = Item<Object>
  type Address = Bytes -> Digest

  datatype CasError = ObjectTooLarge | Corrupt | OutcomeUnknown | Io

  function CasAddress(hash: Bytes -> Digest): Address {
    (bytes: Bytes) => FramedDigest(hash, [CAS_DOMAIN, bytes])
  }

  /** Objects with one storage digest are equal, or their framed preimages collide. */
  lemma AddressBinds(hash: Bytes -> Digest, left: Buffer, right: Buffer)
    requires CasAddress(hash)(left) == CasAddress(hash)(right)
    ensures left == right || Collide(hash, FrameAll([CAS_DOMAIN, left]), FrameAll([CAS_DOMAIN, right]))
  {
    FramedDigestBinds(hash, [CAS_DOMAIN, left], [CAS_DOMAIN, right]);
    assert [CAS_DOMAIN, left][1] == left && [CAS_DOMAIN, right][1] == right;
  }

  // ---------- names ----------

  function ObjectName(digest: Digest): (name: string)
    ensures IsDigestName(name)
  {
    ToHex(digest)
  }

  function NamedDigest(name: string): Digest
    requires IsDigestName(name)
  {
    FromHex(name)
  }

  predicate IsStagingName(name: string) {
    && ".cas-" <= name && HasSuffix(name, ".tmp") && |name| >= 9
    && var fields := Split(name[5..|name| - 4], '-');
      && |fields| == 3 && IsDigestName(fields[0])
      && fields[1] != "" && AllDigits(fields[1])
      && fields[2] != "" && AllDigits(fields[2])
  }

  function StagingName(digest: Digest, pid: string, sequence: string): string {
    ".cas-" + Join([ToHex(digest), pid, sequence], '-') + ".tmp"
  }

  lemma StagingNameIsStaging(digest: Digest, pid: string, sequence: string)
    requires pid != "" && AllDigits(pid) && sequence != "" && AllDigits(sequence)
    ensures IsStagingName(StagingName(digest, pid, sequence))
  {
    var fields := [ToHex(digest), pid, sequence];
    var name := StagingName(digest, pid, sequence);
    assert name[5..|name| - 4] == Join(fields, '-');
    SplitJoin(fields, '-');
  }

  lemma StagingIsNotObject(name: string)
    requires IsStagingName(name)
    ensures !IsDigestName(name)
  {
    assert name[0] == '.';
  }

  // ---------- object directories ----------

  /** What reading an object back requires of the file under its name. */
  /** The staging name of some object, process and counter. */
  ghost predicate IsStagedAs(name: string, digest: Digest, pid: string, sequence: string) {
    pid != "" && AllDigits(pid) && sequence != "" && AllDigits(sequence) && name == StagingName(digest, pid, sequence)
  }

  /** Exactly the names that puts stage under are staging names. */
  lemma StagingNameExact(name: string)
    ensures IsStagingName(name) <==> exists digest, pid, sequence :: IsStagedAs(name, digest, pid, sequence)
  {
    if IsStagingName(name) {
      var middle := name[5..|name| - 4];
      var fields := Split(middle, '-');
      JoinSplit(middle, '-');
      ToHexFromHex(fields[0]);
      assert fields == [fields[0], fields[1], fields[2]];
      assert name == ".cas-" + middle + ".tmp";
      assert IsStagedAs(name, FromHex(fields[0]), fields[1], fields[2]);
    }
    forall digest, pid, sequence | IsStagedAs(name, digest, pid, sequence) ensures IsStagingName(name) {
      StagingNameIsStaging(digest, pid, sequence);
    }
  }

  predicate Verifies(address: Address, file: ObjectFile, digest: Digest) {
    && file.kind == Regular && file.data.readOnly
    && |file.data.bytes| <= MAX_OBJECT_BYTES && address(file.data.bytes) == digest
  }

  predicate EntryAccepted(address: Address, name: string, file: ObjectFile) {
    if IsDigestName(name) then Verifies(address, file, NamedDigest(name))
    else IsStagingName(name) && file.kind == Regular && |file.data.bytes| <= MAX_OBJECT_BYTES
  }

  /** Every entry visible now or after a crash is a whole object under its digest, or staging. */
  ghost predicate Sound(address: Address, d: Directory<Object>) {
    forall name ::
      && Now(d, name) in Candidates(d, name)
      && forall v :: v in Candidates(d, name) && v.Some? ==>
           EntryAccepted(address, name, v.value) && (IsDigestName(name) ==> v.value.synced)
  }

  /** A crash; torn file contents never exceed the object bound, as no write does. */
  ghost predicate CasCrash(d: Directory<Object>, crashed: Directory<Object>) {
    && CrashImage(d, crashed)
    && forall name :: Now(crashed, name).Some? ==> |Now(crashed, name).value.data.bytes| <= MAX_OBJECT_BYTES
  }

  ghost predicate KeepsSettled(a: Directory<Object>, b: Directory<Object>) {
    forall name, file :: IsDigestName(name) && Settled(a, name, file) ==> Settled(b, name, file)
  }

  /** The store stays sound, and no durable object is lost or changed. */
  ghost predicate Step(address: Address, a: Directory<Object>, b: Directory<Object>) {
    Sound(address, b) && KeepsSettled(a, b)
  }

  ghost predicate SameObjects(a: Directory<Object>, b: Directory<Object>) {
    forall name :: IsDigestName(name) ==> Now(a, name) == Now(b, name)
  }

  lemma StepTransitive(address: Address, a: Directory<Object>, b: Directory<Object>, c: Directory<Object>)
    requires Step(address, a, b) && Step(address, b, c)
    ensures Step(address, a, c)
  {
  }

  lemma CrashStep(address: Address, d: Directory<Object>, crashed: Directory<Object>)
    requires Sound(address, d) && CasCrash(d, crashed)
    ensures Step(address, d, crashed)
  {
    forall name
      ensures Now(crashed, name) in Candidates(crashed, name)
      ensures forall v :: v in Candidates(crashed, name) && v.Some? ==>
        EntryAccepted(address, name, v.value) && (IsDigestName(name) ==> v.value.synced)
    {
      assert SlotSurvives(d, crashed, name);
    }
    forall name, file | IsDigestName(name) && Settled(d, name, file) ensures Settled(crashed, name, file) {
      SettledSurvives(d, crashed, name, file);
    }
  }

  lemma SyncStep(address: Address, d: Directory<Object>)
    requires Sound(address, d)
    ensures Step(address, d, SyncDirectory(d)) && SameObjects(d, SyncDirectory(d))
    ensures forall name :: IsDigestName(name) && Now(d, name).Some? ==>
      Settled(SyncDirectory(d), name, Now(d, name).value)
  {
    assert forall name :: Now(d, name) in Candidates(d, name);
  }

  // ---------- one put as the states the disk passes through ----------

  /** Which calls of a put succeed; a failing write leaves `partial` bytes behind. */
  datatype PutCalls = PutCalls(
    allocate: bool, write: bool, partial: nat, readOnly: bool, fileSync: bool, link: bool, unlink: bool, sync: bool)

  datatype PutRun = PutRun(result: Result<Digest, CasError>, states: seq<Directory<Object>>)

  predicate Fresh(d: Directory<Object>, staging: Option<string>) {
    staging.Some? ==> IsStagingName(staging.value) && Now(d, staging.value).None?
  }

  function Staged(bytes: Bytes, readOnly: bool, synced: bool): Option<ObjectFile> {
    Some(Item(Regular, Object(bytes, readOnly), synced))
  }

  function StagingStates(d: Directory<Object>, bytes: Bytes, staging: string, calls: PutCalls)
    : (states: seq<Directory<Object>>)
    ensures |states| >= 1
  {
    var created := Put(d, staging, Staged([], false, false));
    if !calls.write then
      [created, Put(created, staging,
        Staged(bytes[..if calls.partial <= |bytes| then calls.partial else |bytes|], false, false))]
    else
      var written := Put(created, staging, Staged(bytes, false, false));
      if !calls.readOnly then [created, written]
      else
        var sealed := Put(written, staging, Staged(bytes, true, false));
        if !calls.fileSync then [created, written, sealed]
        else [created, written, sealed, Put(sealed, staging, Staged(bytes, true, true))]
  }

  function LinkStates(d: Directory<Object>, digest: Digest, staging: string, calls: PutCalls)
    : (states: seq<Directory<Object>>)
    ensures |states| >= 1
  {
    var linked := Put(d, ObjectName(digest), Now(d, staging));
    if !calls.unlink then [linked]
    else
      var unlinked := Put(linked, staging, None);
      if calls.sync then [linked, unlinked, SyncDirectory(unlinked)] else [linked, unlinked]
  }

  predicate StagingSucceeds(calls: PutCalls) {
    calls.write && calls.readOnly && calls.fileSync
  }

  /** Staging, and if it succeeds linking. */
  function RunOf(digest: Digest, staged: seq<Directory<Object>>, linked: seq<Directory<Object>>,
                 calls: PutCalls): PutRun {
    if !StagingSucceeds(calls) || !calls.link then PutRun(Err(Io), staged)
    else PutRun(if calls.unlink && calls.sync then Ok(digest) else Err(OutcomeUnknown), staged + linked)
  }

  function PutNew(d: Directory<Object>, digest: Digest, bytes: Bytes, staging: string, calls: PutCalls): PutRun {
    var staged := StagingStates(d, bytes, staging, calls);
    RunOf(digest, staged, LinkStates(staged[|staged| - 1], digest, staging, calls), calls)
  }

  function PutObject(address: Address, d: Directory<Object>, bytes: Bytes, staging: Option<string>, calls: PutCalls)
    : PutRun
  {
    if |bytes| > MAX_OBJECT_BYTES then PutRun(Err(ObjectTooLarge), [])
    else
      var digest := address(bytes);
      match Now(d, ObjectName(digest))
      case Some(file) =>
        if !Verifies(address, file, digest) then PutRun(Err(Corrupt), [])
        else if calls.sync then PutRun(Ok(digest), [SyncDirectory(d)])
        else PutRun(Err(OutcomeUnknown), [])
      case None =>
        if staging.None? || !calls.allocate then PutRun(Err(Io), [])
        else PutNew(d, digest, bytes, staging.value, calls)
  }

  ghost predicate AllSteps(address: Address, d: Directory<Object>, states: seq<Directory<Object>>) {
    forall s :: s in states ==> Step(address, d, s)
  }

  /** The object under `digest` is durable and reads back. */
  ghost predicate Durable(address: Address, d: Directory<Object>, digest: Digest) {
    exists file :: Settled(d, ObjectName(digest), file) && Verifies(address, file, digest)
  }

  /** What one put promises, whatever calls fail. */
  ghost predicate SafePut(address: Address, d: Directory<Object>, bytes: Bytes, p: PutRun) {
    && AllSteps(address, d, p.states)
    && (p.result.Ok? ==> p.result.value == address(bytes) && Durable(address, Final(d, p.states), address(bytes)))
    && (p.result.Err? && p.result != Err(OutcomeUnknown) ==> SameObjects(d, Final(d, p.states)))
  }

  /** What a staging name may hold: a bounded regular file or nothing. */
  predicate StagingItem(item: Option<ObjectFile>) {
    item.Some? ==> item.value.kind == Regular && |item.value.data.bytes| <= MAX_OBJECT_BYTES
  }

  lemma RestagedStep(address: Address, d: Directory<Object>, s: Directory<Object>, staging: string)
    requires Sound(address, d) && IsStagingName(staging) && Restaged(d, s, staging, StagingItem)
    ensures Step(address, d, s) && SameObjects(d, s)
  {
    StagingIsNotObject(staging);
  }

  lemma StagingStep(address: Address, d: Directory<Object>, staging: string, item: Option<ObjectFile>)
    requires Sound(address, d) && IsStagingName(staging) && StagingItem(item)
    ensures Step(address, d, Put(d, staging, item)) && SameObjects(d, Put(d, staging, item))
  {
    PutRestages(d, d, staging, StagingItem, item);
    RestagedStep(address, d, Put(d, staging, item), staging);
  }

  lemma StagingStatesRestage(d: Directory<Object>, bytes: Bytes, staging: string, calls: PutCalls)
    requires |bytes| <= MAX_OBJECT_BYTES
    ensures forall s :: s in StagingStates(d, bytes, staging, calls) ==> Restaged(d, s, staging, StagingItem)
  {
    var created := Put(d, staging, Staged([], false, false));
    PutRestages(d, d, staging, StagingItem, Staged([], false, false));
    if !calls.write {
      var part := bytes[..if calls.partial <= |bytes| then calls.partial else |bytes|];
      PutRestages(d, created, staging, StagingItem, Staged(part, false, false));
    } else {
      var written := Put(created, staging, Staged(bytes, false, false));
      PutRestages(d, created, staging, StagingItem, Staged(bytes, false, false));
      var sealed := Put(written, staging, Staged(bytes, true, false));
      PutRestages(d, written, staging, StagingItem, Staged(bytes, true, false));
      PutRestages(d, sealed, staging, StagingItem, Staged(bytes, true, true));
    }
  }

  lemma StagingStatesStep(address: Address, d: Directory<Object>, bytes: Bytes, staging: string, calls: PutCalls)
    requires Sound(address, d) && IsStagingName(staging) && |bytes| <= MAX_OBJECT_BYTES
    ensures forall s :: s in StagingStates(d, bytes, staging, calls) ==> Step(address, d, s) && SameObjects(d, s)
  {
    StagingStatesRestage(d, bytes, staging, calls);
    forall s | s in StagingStates(d, bytes, staging, calls) ensures Step(address, d, s) && SameObjects(d, s) {
      RestagedStep(address, d, s, staging);
    }
  }

  lemma LinkStep(address: Address, d: Directory<Object>, bytes: Bytes)
    requires Sound(address, d) && |bytes| <= MAX_OBJECT_BYTES && Now(d, ObjectName(address(bytes))).None?
    ensures Step(address, d, Put(d, ObjectName(address(bytes)), Staged(bytes, true, true)))
  {
    FromHexToHex(address(bytes));
    assert forall file :: !Settled(d, ObjectName(address(bytes)), file);
  }

  /** When writing succeeds the staging file holds all bytes, read-only and synced. */
  lemma StagedIsWhole(d: Directory<Object>, bytes: Bytes, staging: string, calls: PutCalls)
    requires StagingSucceeds(calls)
    ensures var states := StagingStates(d, bytes, staging, calls);
      Now(states[|states| - 1], staging) == Staged(bytes, true, true)
  {
  }

  lemma LinkStatesStep(address: Address, d: Directory<Object>, bytes: Bytes, staging: string, calls: PutCalls)
    requires Sound(address, d) && |bytes| <= MAX_OBJECT_BYTES && Now(d, ObjectName(address(bytes))).None?
    requires IsStagingName(staging) && Now(d, staging) == Staged(bytes, true, true)
    ensures AllSteps(address, d, LinkStates(d, address(bytes), staging, calls))
    ensures calls.unlink && calls.sync ==>
      var states := LinkStates(d, address(bytes), staging, calls);
      Durable(address, states[|states| - 1], address(bytes))
  {
    var name := ObjectName(address(bytes));
    var linked := Put(d, name, Staged(bytes, true, true));
    LinkStep(address, d, bytes);
    StagingIsNotObject(staging);
    var unlinked := Put(linked, staging, None);
    StagingStep(address, linked, staging, None);
    StepTransitive(address, d, linked, unlinked);
    var synced := SyncDirectory(unlinked);
    SyncStep(address, unlinked);
    StepTransitive(address, d, unlinked, synced);
    assert Settled(synced, name, Staged(bytes, true, true).value);
  }

  /** Steps up to a middle state followed by steps from it. */
  lemma StepsJoin(address: Address, d: Directory<Object>, middle: Directory<Object>, staged: seq<Directory<Object>>,
                  linked: seq<Directory<Object>>)
    requires AllSteps(address, d, staged) && middle in staged && AllSteps(address, middle, linked)
    ensures AllSteps(address, d, staged + linked)
  {
    forall s | s in linked ensures Step(address, d, s) {
      StepTransitive(address, d, middle, s);
    }
  }

  lemma RunIsSafe(address: Address, d: Directory<Object>, bytes: Bytes, staged: seq<Directory<Object>>,
                  linked: seq<Directory<Object>>, calls: PutCalls)
    requires staged != [] && linked != [] && AllSteps(address, d, staged) && SameObjects(d, staged[|staged| - 1])
    requires StagingSucceeds(calls) ==> AllSteps(address, staged[|staged| - 1], linked)
    requires StagingSucceeds(calls) && calls.unlink && calls.sync ==>
      Durable(address, linked[|linked| - 1], address(bytes))
    ensures SafePut(address, d, bytes, RunOf(address(bytes), staged, linked, calls))
  {
    var middle := staged[|staged| - 1];
    assert middle in staged;
    if StagingSucceeds(calls) {
      StepsJoin(address, d, middle, staged, linked);
    }
    assert Final(d, staged + linked) == linked[|linked| - 1];
  }

  /** With one writer the object's name is free whenever a put comes to link it, so the branch for
      a name that already exists is never taken. */
  lemma LinkTargetIsFree(address: Address, d: Directory<Object>, digest: Digest, bytes: Bytes, staging: string,
                         calls: PutCalls)
    requires Sound(address, d) && IsStagingName(staging) && |bytes| <= MAX_OBJECT_BYTES
    requires Now(d, ObjectName(digest)).None?
    ensures forall s :: s in StagingStates(d, bytes, staging, calls) ==> Now(s, ObjectName(digest)).None?
  {
    StagingStatesStep(address, d, bytes, staging, calls);
  }

  lemma LinkIsSafe(address: Address, d: Directory<Object>, bytes: Bytes, staging: string, calls: PutCalls,
                   middle: Directory<Object>)
    requires StagingSucceeds(calls) && Sound(address, middle) && |bytes| <= MAX_OBJECT_BYTES && IsStagingName(staging)
    requires Now(middle, ObjectName(address(bytes))).None?
    requires var staged := StagingStates(d, bytes, staging, calls); middle == staged[|staged| - 1]
    ensures var linked := LinkStates(middle, address(bytes), staging, calls);
      && AllSteps(address, middle, linked)
      && (calls.unlink && calls.sync ==> Durable(address, linked[|linked| - 1], address(bytes)))
  {
    StagedIsWhole(d, bytes, staging, calls);
    LinkStatesStep(address, middle, bytes, staging, calls);
  }

  lemma PutNewIsSafe(address: Address, d: Directory<Object>, bytes: Bytes, staging: string, calls: PutCalls)
    requires Sound(address, d) && |bytes| <= MAX_OBJECT_BYTES && Now(d, ObjectName(address(bytes))).None?
    requires IsStagingName(staging)
    ensures SafePut(address, d, bytes, PutNew(d, address(bytes), bytes, staging, calls))
  {
    var staged := StagingStates(d, bytes, staging, calls);
    var middle := staged[|staged| - 1];
    StagingStatesStep(address, d, bytes, staging, calls);
    assert middle in staged;
    var linked := LinkStates(middle, address(bytes), staging, calls);
    if StagingSucceeds(calls) {
      LinkIsSafe(address, d, bytes, staging, calls, middle);
    }
    RunIsSafe(address, d, bytes, staged, linked, calls);
  }

  /** Every put is safe: each state on the way is sound and keeps what was durable,
      success means durable, and an error other than an unknown outcome leaves the
      visible objects as they were. */
  lemma PutIsSafe(address: Address, d: Directory<Object>, bytes: Bytes, staging: Option<string>, calls: PutCalls)
    requires Sound(address, d) && Fresh(d, staging)
    ensures SafePut(address, d, bytes, PutObject(address, d, bytes, staging, calls))
  {
    if |bytes| <= MAX_OBJECT_BYTES {
      var name := ObjectName(address(bytes));
      if Now(d, name).Some? {
        SyncStep(address, d);
        assert Settled(SyncDirectory(d), name, Now(d, name).value);
      } else if staging.Some? && calls.allocate {
        PutNewIsSafe(address, d, bytes, staging.value, calls);
      }
    }
  }

  // ---------- what is accepted, and what a put answers ----------

  /** A whole object: a read-only regular file, no larger than an object may be, with this digest. */
  predicate IsWhole(address: Address, file: Option<ObjectFile>, digest: Digest) {
    match file
    case None => false
    case Some(Item(kind, Object(bytes, readOnly), _)) =>
      kind == Regular && readOnly && |bytes| <= MAX_OBJECT_BYTES && address(bytes) == digest
  }

  /** Under the text of a digest a whole object of that digest, or under the name of a staged put a
      regular file no larger than an object may be. */
  ghost predicate WholeOrStaged(address: Address, name: string, file: ObjectFile) {
    || (exists digest: Digest :: name == ToHex(digest) && IsWhole(address, Some(file), digest))
    || (&& (exists digest, pid, sequence :: IsStagedAs(name, digest, pid, sequence))
        && file.kind == Regular && |file.data.bytes| <= MAX_OBJECT_BYTES)
  }

  /** Exactly the directories of whole objects and staged puts are accepted. */
  lemma AcceptedExactly(address: Address, d: Directory<Object>)
    ensures Accepted(address, d) <==>
      forall name :: Now(d, name).Some? ==> WholeOrStaged(address, name, Now(d, name).value)
  {
    forall name | Now(d, name).Some?
      ensures EntryAccepted(address, name, Now(d, name).value) <==> WholeOrStaged(address, name, Now(d, name).value)
    {
      EntryAcceptedExactly(address, name, Now(d, name).value);
    }
  }

  lemma EntryAcceptedExactly(address: Address, name: string, file: ObjectFile)
    ensures EntryAccepted(address, name, file) <==> WholeOrStaged(address, name, file)
  {
    DigestNameExact(name);
    StagingNameExact(name);
    if IsDigestName(name) {
      ToHexFromHex(name);
      forall digest: Digest | name == ToHex(digest) ensures digest == NamedDigest(name) {
        FromHexToHex(digest);
      }
    }
    if IsStagingName(name) {
      assert name[0] == '.' && !IsLowerHex(name[0]);
    }
  }

  /** What a put answers, for every failing call. */
  lemma PutAnswersExactly(address: Address, d: Directory<Object>, bytes: Bytes, staging: Option<string>,
                          calls: PutCalls)
    ensures var r := PutObject(address, d, bytes, staging, calls).result;
      var there := Now(d, ObjectName(address(bytes)));
      var small := |bytes| <= MAX_OBJECT_BYTES;
      var staged := staging.Some? && calls.allocate && calls.write && calls.readOnly && calls.fileSync && calls.link;
      && (r == Err(ObjectTooLarge) <==> !small)
      && (r == Err(Corrupt) <==> small && there.Some? && !IsWhole(address, there, address(bytes)))
      && (r == Err(Io) <==> small && there.None? && !staged)
      && (r == Err(OutcomeUnknown) <==>
            small && (if there.Some? then IsWhole(address, there, address(bytes)) && !calls.sync
                      else staged && !(calls.unlink && calls.sync)))
      && (r.Ok? ==> r.value == address(bytes))
  {
  }

  // ---------- when a put succeeds ----------

  /** Every call of a put works. */
  predicate PutWorks(calls: PutCalls) {
    calls.allocate && StagingSucceeds(calls) && calls.link && calls.unlink && calls.sync
  }

  /** The same staging files are there. */
  ghost predicate SameStaging(a: Directory<Object>, b: Directory<Object>) {
    forall name :: IsStagingName(name) ==> Now(a, name) == Now(b, name)
  }

  lemma PutNewLeaves(d: Directory<Object>, digest: Digest, bytes: Bytes, staging: string, calls: PutCalls)
    requires PutWorks(calls) && IsStagingName(staging) && Now(d, staging).None? && |bytes| <= MAX_OBJECT_BYTES
    ensures var p := PutNew(d, digest, bytes, staging, calls);
      p.result == Ok(digest) && SameStaging(d, Final(d, p.states))
  {
    var staged := StagingStates(d, bytes, staging, calls);
    var middle := staged[|staged| - 1];
    StagingStatesRestage(d, bytes, staging, calls);
    var linked := LinkStates(middle, digest, staging, calls);
    forall name | IsStagingName(name) ensures Now(d, name) == Now(linked[|linked| - 1], name) {
      assert name[0] == '.' && name != ObjectName(digest);
    }
  }

  /** With working calls, a put into a sound store succeeds exactly when the bytes fit an object
      and a staging name is found where one is needed; and it leaves no staging behind. */
  lemma PutSucceedsExactly(address: Address, d: Directory<Object>, bytes: Bytes, staging: Option<string>,
                           calls: PutCalls)
    requires Sound(address, d) && Fresh(d, staging) && PutWorks(calls)
    ensures var p := PutObject(address, d, bytes, staging, calls);
      && (p.result.Ok? <==>
           |bytes| <= MAX_OBJECT_BYTES && (Now(d, ObjectName(address(bytes))).None? ==> staging.Some?))
      && (p.result.Ok? ==> SameStaging(d, Final(d, p.states)))
      && p.result != Err(OutcomeUnknown)
  {
    var digest := address(bytes);
    FromHexToHex(digest);
    if |bytes| <= MAX_OBJECT_BYTES && Now(d, ObjectName(digest)).None? && staging.Some? {
      PutNewLeaves(d, digest, bytes, staging.value, calls);
    }
  }

  // ---------- every run of the store ----------

  /** The directory, and whether a process holds a healthy instance over it. */
  datatype Store = Store(dir: Directory<Object>, usable: bool)

  datatype Event =
    | Putting(bytes: Bytes, staging: Option<string>, calls: PutCalls)
    | Dying(bytes: Bytes, staging: Option<string>, calls: PutCalls, after: nat) // the process stops inside a put
    | Crashing                                                                  // the machine stops
    | Opening(synced: bool)

  ghost predicate Accepted(address: Address, d: Directory<Object>) {
    forall name :: Now(d, name).Some? ==> EntryAccepted(address, name, Now(d, name).value)
  }

  ghost predicate Next(address: Address, s: Store, e: Event, t: Store) {
    match e
    case Putting(bytes, staging, calls) =>
      var p := PutObject(address, s.dir, bytes, staging, calls);
      s.usable && Fresh(s.dir, staging) && t == Store(Final(s.dir, p.states), p.result != Err(OutcomeUnknown))
    case Dying(bytes, staging, calls, after) =>
      var states := PutObject(address, s.dir, bytes, staging, calls).states;
      && s.usable && Fresh(s.dir, staging) && after <= |states|
      && t == Store(Final(s.dir, states[..after]), false)
    case Crashing =>
      CasCrash(s.dir, t.dir) && !t.usable
    case Opening(synced) =>
      if Accepted(address, s.dir) && synced then t == Store(SyncDirectory(s.dir), true)
      else t == Store(s.dir, false)
  }

  ghost function Transition(address: Address): (Store, Event, Store) -> bool {
    (s, e, t) => Next(address, s, e, t)
  }

  ghost predicate Run(address: Address, events: seq<Event>, states: seq<Store>) {
    IsRun(Transition(address), events, states)
  }

  lemma NextIsStep(address: Address, s: Store, e: Event, t: Store)
    requires Sound(address, s.dir) && Next(address, s, e, t)
    ensures Step(address, s.dir, t.dir)
  {
    match e
    case Putting(bytes, staging, calls) => PutIsSafe(address, s.dir, bytes, staging, calls);
    case Dying(bytes, staging, calls, after) => PutIsSafe(address, s.dir, bytes, staging, calls);
    case Crashing => CrashStep(address, s.dir, t.dir);
    case Opening(synced) => SyncStep(address, s.dir);
  }

  lemma RunSteps(address: Address, events: seq<Event>, states: seq<Store>, first: nat, last: nat)
    requires Run(address, events, states) && first <= last < |states| && Sound(address, states[first].dir)
    ensures Step(address, states[first].dir, states[last].dir)
  {
    var origin := states[first].dir;
    var inv := (s: Store) => Step(address, origin, s.dir);
    forall s, e, t | inv(s) && Transition(address)(s, e, t) ensures inv(t) {
      NextIsStep(address, s, e, t);
      StepTransitive(address, origin, s.dir, t.dir);
    }
    StaysTrue(Transition(address), inv, events, states, first, last);
  }

  /** Every store reached from a sound one can be opened again: interrupted puts and
      crashes never leave an entry that the recovery scan refuses. */
  lemma AlwaysReopens(address: Address, events: seq<Event>, states: seq<Store>, at: nat)
    requires Run(address, events, states) && Sound(address, states[0].dir) && at < |states|
    ensures Accepted(address, states[at].dir)
  {
    RunSteps(address, events, states, 0, at);
  }

  function Get(address: Address, d: Directory<Object>, digest: Digest): Result<Option<Bytes>, CasError> {
    match Now(d, ObjectName(digest))
    case None => Ok(None)
    case Some(file) => if Verifies(address, file, digest) then Ok(Some(file.data.bytes)) else Err(Corrupt)
  }

  ghost predicate Acknowledged(address: Address, s: Store, e: Event) {
    e.Putting? && PutObject(address, s.dir, e.bytes, e.staging, e.calls).result.Ok?
  }

  /** Reading `digest` answers with whole bytes that have that storage digest. */
  ghost predicate Readable(address: Address, d: Directory<Object>, digest: Digest, held: Bytes) {
    Get(address, d, digest) == Ok(Some(held)) && |held| <= MAX_OBJECT_BYTES && address(held) == digest
  }

  lemma DurableIsReadable(address: Address, a: Directory<Object>, b: Directory<Object>, digest: Digest)
    requires Durable(address, a, digest) && Step(address, a, b)
    ensures exists held :: Readable(address, b, digest, held)
  {
    var file :| Settled(a, ObjectName(digest), file) && Verifies(address, file, digest);
    assert Settled(b, ObjectName(digest), file);
    assert Readable(address, b, digest, file.data.bytes);
  }

  lemma AcknowledgedIsDurable(address: Address, s: Store, e: Event, t: Store)
    requires Sound(address, s.dir) && Next(address, s, e, t) && Acknowledged(address, s, e)
    ensures |e.bytes| <= MAX_OBJECT_BYTES && Durable(address, t.dir, address(e.bytes))
  {
    PutIsSafe(address, s.dir, e.bytes, e.staging, e.calls);
  }

  lemma DurableOnceAcknowledged(address: Address, events: seq<Event>, states: seq<Store>, put: nat)
    requires Run(address, events, states) && Sound(address, states[0].dir)
    requires put < |events| && Acknowledged(address, states[put], events[put])
    ensures |events[put].bytes| <= MAX_OBJECT_BYTES && Sound(address, states[put + 1].dir)
    ensures Durable(address, states[put + 1].dir, address(events[put].bytes))
  {
    var s, e, t := states[put], events[put], states[put + 1];
    assert Sound(address, s.dir) by {
      RunSteps(address, events, states, 0, put);
    }
    assert Sound(address, t.dir) by {
      RunSteps(address, events, states, 0, put + 1);
    }
    assert |e.bytes| <= MAX_OBJECT_BYTES && Durable(address, t.dir, address(e.bytes)) by {
      StepOfRun(address, events, states, put);
      AcknowledgedIsDurable(address, s, e, t);
    }
  }

  lemma StepOfRun(address: Address, events: seq<Event>, states: seq<Store>, i: nat)
    requires Run(address, events, states) && i < |events|
    ensures Next(address, states[i], events[i], states[i + 1])
  {
    assert Transition(address)(states[i], events[i], states[i + 1]);
  }

  lemma AcknowledgedStaysReadable(address: Address, events: seq<Event>, states: seq<Store>, put: nat, later: nat)
    requires Run(address, events, states) && Sound(address, states[0].dir)
    requires put < later < |states| && Acknowledged(address, states[put], events[put])
    ensures |events[put].bytes| <= MAX_OBJECT_BYTES
    ensures exists held :: Readable(address, states[later].dir, address(events[put].bytes), held)
  {
    DurableOnceAcknowledged(address, events, states, put);
    RunSteps(address, events, states, put + 1, later);
    DurableIsReadable(address, states[put + 1].dir, states[later].dir, address(events[put].bytes));
  }

  /** A put that returned Ok is readable with the same bytes in every later state of
      every run, whatever crashes, interrupted puts and reopenings lie between, or
      two objects with one storage digest are exhibited. */
  lemma AcknowledgedObjectsPersist(hash: Bytes -> Digest, events: seq<Event>, states: seq<Store>, put: nat, later: nat)
    requires Run(CasAddress(hash), events, states) && Sound(CasAddress(hash), states[0].dir)
    requires put < later < |states| && Acknowledged(CasAddress(hash), states[put], events[put])
    ensures exists held :: ReadsBack(hash, states[later].dir, events[put].bytes, held)
  {
    var address := CasAddress(hash);
    var bytes := events[put].bytes;
    AcknowledgedStaysReadable(address, events, states, put, later);
    var held :| Readable(address, states[later].dir, address(bytes), held);
    AddressBinds(hash, held, bytes);
    assert ReadsBack(hash, states[later].dir, bytes, held);
  }

  ghost predicate ReadsBack(hash: Bytes -> Digest, d: Directory<Object>, bytes: Bytes, held: Bytes) {
    && Get(CasAddress(hash), d, CasAddress(hash)(bytes)) == Ok(Some(held))
    && (held == bytes || Collide(hash, FrameAll([CAS_DOMAIN, held]), FrameAll([CAS_DOMAIN, bytes])))
  }

  // ---------- which contents a directory can hold ----------

  /** Every object there now or after a crash is one of `stored`. */
  ghost predicate Stocked(d: Directory<Object>, stored: set<Bytes>) {
    forall name, v :: IsDigestName(name) && v in Candidates(d, name) && v.Some? ==> v.value.data.bytes in stored
  }

  lemma SyncStocked(address: Address, d: Directory<Object>, stored: set<Bytes>)
    requires Sound(address, d) && Stocked(d, stored)
    ensures Stocked(SyncDirectory(d), stored)
  {
    assert forall name :: Now(d, name) in Candidates(d, name);
  }

  lemma CrashStocked(address: Address, d: Directory<Object>, crashed: Directory<Object>, stored: set<Bytes>)
    requires Sound(address, d) && Stocked(d, stored) && CasCrash(d, crashed)
    ensures Stocked(crashed, stored)
  {
    forall name, v | IsDigestName(name) && v in Candidates(crashed, name)
      && v.Some? ensures v.value.data.bytes in stored {
      assert SlotSurvives(d, crashed, name);
      var c :| c in Candidates(d, name) && Survives(c, Now(crashed, name));
      assert c.Some? && c.value.synced;
    }
  }

  lemma RestagedStocked(d: Directory<Object>, s: Directory<Object>, staging: string, stored: set<Bytes>)
    requires Stocked(d, stored) && IsStagingName(staging) && Restaged(d, s, staging, StagingItem)
    ensures Stocked(s, stored)
  {
    StagingIsNotObject(staging);
  }

  lemma LinkStatesStocked(address: Address, d: Directory<Object>, digest: Digest, bytes: Bytes, staging: string,
                          calls: PutCalls, stored: set<Bytes>)
    requires Stocked(d, stored) && IsStagingName(staging) && bytes in stored && Coherent(d)
    requires Now(d, staging) == Staged(bytes, true, true)
    ensures forall s :: s in LinkStates(d, digest, staging, calls) ==> Stocked(s, stored)
  {
    var linked := Put(d, ObjectName(digest), Staged(bytes, true, true));
    PutCoherent(d, ObjectName(digest), Staged(bytes, true, true));
    assert Stocked(linked, stored);
    var unlinked := Put(linked, staging, None);
    PutRestages(linked, linked, staging, StagingItem, None);
    RestagedStocked(linked, unlinked, staging, stored);
    PutCoherent(linked, staging, None);
    assert Stocked(SyncDirectory(unlinked), stored) by {
      assert forall name :: Now(unlinked, name) in Candidates(unlinked, name);
    }
  }

  lemma PutNewStocked(address: Address, d: Directory<Object>, bytes: Bytes, staging: string, calls: PutCalls,
                      stored: set<Bytes>)
    requires Sound(address, d) && Stocked(d, stored) && |bytes| <= MAX_OBJECT_BYTES && IsStagingName(staging)
    requires bytes in stored
    ensures forall s :: s in PutNew(d, address(bytes), bytes, staging, calls).states ==> Stocked(s, stored)
  {
    var staged := StagingStates(d, bytes, staging, calls);
    var middle := staged[|staged| - 1];
    StagingStatesRestage(d, bytes, staging, calls);
    StagingStatesStep(address, d, bytes, staging, calls);
    forall s | s in staged ensures Stocked(s, stored) {
      RestagedStocked(d, s, staging, stored);
    }
    assert middle in staged && Coherent(middle);
    if StagingSucceeds(calls) {
      StagedIsWhole(d, bytes, staging, calls);
      LinkStatesStocked(address, middle, address(bytes), bytes, staging, calls, stored);
    }
  }

  /** A put brings in no contents but its own. */
  lemma PutStocked(address: Address, d: Directory<Object>, bytes: Bytes, staging: Option<string>, calls: PutCalls,
                   stored: set<Bytes>)
    requires Sound(address, d) && Fresh(d, staging) && Stocked(d, stored) && bytes in stored
    ensures forall s :: s in PutObject(address, d, bytes, staging, calls).states ==> Stocked(s, stored)
  {
    if |bytes| <= MAX_OBJECT_BYTES {
      if Now(d, ObjectName(address(bytes))).Some? {
        SyncStocked(address, d, stored);
      } else if staging.Some? && calls.allocate {
        PutNewStocked(address, d, bytes, staging.value, calls, stored);
      }
    }
  }

  /** The contents that `e` brings in. */
  function Brings(e: Event): set<Bytes> {
    match e case Putting(bytes, _, _) => {bytes} case Dying(bytes, _, _, _) => {bytes} case _ => {}
  }

  lemma NextStocked(address: Address, s: Store, e: Event, t: Store, stored: set<Bytes>)
    requires Sound(address, s.dir) && Next(address, s, e, t) && Stocked(s.dir, stored) && Brings(e) <= stored
    ensures Stocked(t.dir, stored)
  {
    match e
    case Putting(bytes, staging, calls) => PutStocked(address, s.dir, bytes, staging, calls, stored);
    case Dying(bytes, staging, calls, after) => PutStocked(address, s.dir, bytes, staging, calls, stored);
    case Crashing => CrashStocked(address, s.dir, t.dir, stored);
    case Opening(_) => SyncStocked(address, s.dir, stored);
  }

  /** A durable object stays durable, and reads back the same. */
  lemma DurableStays(address: Address, a: Directory<Object>, b: Directory<Object>, digest: Digest)
    requires Durable(address, a, digest) && Step(address, a, b)
    ensures Durable(address, b, digest) && Get(address, b, digest) == Get(address, a, digest)
  {
    var file :| Settled(a, ObjectName(digest), file) && Verifies(address, file, digest);
    assert Settled(b, ObjectName(digest), file);
  }

  /** A durable object reads back as one of the stored contents. */
  lemma DurableIsStocked(address: Address, d: Directory<Object>, digest: Digest, stored: set<Bytes>)
    requires Durable(address, d, digest) && Stocked(d, stored)
    ensures Get(address, d, digest).Ok? && Get(address, d, digest).value.Some?
    ensures var held := Get(address, d, digest).value.value; held in stored && address(held) == digest
  {
    var file :| Settled(d, ObjectName(digest), file) && Verifies(address, file, digest);
    assert Some(file) in Candidates(d, ObjectName(digest));
  }
}
