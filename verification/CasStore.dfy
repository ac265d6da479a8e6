/** The content store as an instance over a directory: opening, reading and putting. */
module CasStore {
  import opened Framing
  import opened Names
  import opened Durability
  import opened Cas

  const TEMP_ATTEMPTS := 128

  /** The recovery scan, in whatever order the entries are enumerated. */
  method ValidateEntries(address: Address, listing: seq<(string, ObjectFile)>, ghost d: Directory<Object>)
    returns (accepted: bool)
    requires Lists(listing, Visible(d))
    ensures accepted <==> Accepted(address, d)
    ensures accepted <==> forall name :: Now(d, name).Some? ==> WholeOrStaged(address, name, Now(d, name).value)
  {
    AcceptedExactly(address, d);
    for n := 0 to |listing|
      invariant forall i :: 0 <= i < n ==> EntryAccepted(address, listing[i].0, listing[i].1)
    {
      if !EntryAccepted(address, listing[n].0, listing[n].1) {
        assert listing[n] in listing && Now(d, listing[n].0) == Some(listing[n].1);
        return false;
      }
    }
    forall name | Now(d, name).Some? ensures EntryAccepted(address, name, Now(d, name).value) {
      assert name in Visible(d) && (name, Visible(d)[name]) in listing;
    }
    return true;
  }

  /** Open a directory: validate every entry, then sync it before first use. */
  method OpenCas(address: Address, disk: Disk<Object>, listing: seq<(string, ObjectFile)>, syncs: bool)
    returns (r: Result<ImmutableCas, CasError>)
    requires Lists(listing, Visible(disk.dir))
    modifies disk
    ensures r.Ok? <==> old(Accepted(address, disk.dir)) && syncs
    ensures r.Ok? ==> fresh(r.value) && r.value.disk == disk && r.value.address == address && !r.value.poisoned
    ensures Next(address, Store(old(disk.dir), false), Opening(syncs), Store(disk.dir, r.Ok?))
  {
    var accepted := ValidateEntries(address, listing, disk.dir);
    if !accepted {
      return Err(Corrupt);
    }
    if !syncs {
      return Err(OutcomeUnknown);
    }
    disk.Sync();
    var cas := new ImmutableCas(address, disk);
    r := Ok(cas);
  }

  /** The staging name of an attempt; `sequence` is the process-wide counter. */
  function NumberedName(digest: Digest, pid: string, sequence: nat, attempt: nat): string {
    StagingName(digest, pid, Decimal(sequence + attempt))
  }

  /** Every staging name that a put tries is in use. */
  predicate Exhausted(d: Directory<Object>, digest: Digest, pid: string, sequence: nat) {
    forall attempt :: 0 <= attempt < TEMP_ATTEMPTS ==> Now(d, NumberedName(digest, pid, sequence, attempt)).Some?
  }

  /** No staging name is found for a new object exactly when all are in use. */
  predicate Allocated(d: Directory<Object>, digest: Digest, pid: string, sequence: nat, staging: Option<string>) {
    Now(d, ObjectName(digest)).None? ==> (staging.None? <==> Exhausted(d, digest, pid, sequence))
  }

  class ImmutableCas {
    const address: Address
    const disk: Disk<Object>
    var poisoned: bool

    constructor (address: Address, disk: Disk<Object>)
      ensures this.address == address && this.disk == disk && !poisoned
    {
      this.address := address;
      this.disk := disk;
      poisoned := false;
    }

    method GetObject(digest: Digest) returns (r: Result<Option<Bytes>, CasError>)
      ensures r == if poisoned then Err(OutcomeUnknown) else Get(address, disk.dir, digest)
      ensures !poisoned ==>
        var there := Now(disk.dir, ObjectName(digest));
        && (r == Ok(None) <==> there.None?)
        && (r.Ok? && r.value.Some? <==> IsWhole(address, there, digest))
        && (r.Ok? && r.value.Some? ==> r.value.value == there.value.data.bytes)
    {
      if poisoned {
        return Err(OutcomeUnknown);
      }
      match Now(disk.dir, ObjectName(digest))
      case None => r := Ok(None);
      case Some(file) => r := if Verifies(address, file, digest) then Ok(Some(file.data.bytes)) else Err(Corrupt);
    }

    /** Try numbered staging names until one is free; `sequence` is the process-wide counter. */
    method AllocateStaging(digest: Digest, pid: string, sequence: nat) returns (staging: Option<string>)
      requires pid != "" && AllDigits(pid)
      ensures Fresh(disk.dir, staging) && (staging.None? <==> Exhausted(disk.dir, digest, pid, sequence))
    {
      for attempt := 0 to TEMP_ATTEMPTS
        invariant forall a :: 0 <= a < attempt ==> Now(disk.dir, NumberedName(digest, pid, sequence, a)).Some?
      {
        var name := NumberedName(digest, pid, sequence, attempt);
        if Now(disk.dir, name).None? {
          StagingNameIsStaging(digest, pid, Decimal(sequence + attempt));
          return Some(name);
        }
      }
      staging := None;
    }

    method WriteStaging(bytes: Bytes, staging: string, calls: PutCalls)
      modifies disk
      ensures var states := StagingStates(old(disk.dir), bytes, staging, calls);
        disk.dir == states[|states| - 1] && disk.trail == old(disk.trail) + states
    {
      disk.Change(staging, Staged([], false, false));
      if !calls.write {
        var part := bytes[..if calls.partial <= |bytes| then calls.partial else |bytes|];
        disk.Change(staging, Staged(part, false, false));
        return;
      }
      disk.Change(staging, Staged(bytes, false, false));
      if !calls.readOnly {
        return;
      }
      disk.Change(staging, Staged(bytes, true, false));
      if calls.fileSync {
        disk.Change(staging, Staged(bytes, true, true));
      }
    }

    method LinkObject(digest: Digest, staging: string, calls: PutCalls)
      modifies disk
      ensures var states := LinkStates(old(disk.dir), digest, staging, calls);
        disk.dir == states[|states| - 1] && disk.trail == old(disk.trail) + states
    {
      disk.Change(ObjectName(digest), Now(disk.dir, staging));
      if calls.unlink {
        disk.Change(staging, None);
        if calls.sync {
          disk.Sync();
        }
      }
    }

    /** The disk passes through exactly these states. */
    twostate predicate Passed(states: seq<Directory<Object>>)
      reads disk
    {
      disk.dir == Final(old(disk.dir), states) && disk.trail == old(disk.trail) + states
    }

    method PublishNew(digest: Digest, bytes: Bytes, staging: string, calls: PutCalls)
      returns (r: Result<Digest, CasError>)
      modifies this, disk
      ensures r == PutNew(old(disk.dir), digest, bytes, staging, calls).result
      ensures Passed(PutNew(old(disk.dir), digest, bytes, staging, calls).states)
      ensures poisoned == (old(poisoned) || r == Err(OutcomeUnknown))
    {
      WriteStaging(bytes, staging, calls);
      if !StagingSucceeds(calls) || !calls.link {
        return Err(Io);
      }
      LinkObject(digest, staging, calls);
      if calls.unlink && calls.sync {
        return Ok(digest);
      }
      poisoned := true;
      r := Err(OutcomeUnknown);
    }

    /** Store bytes or adopt the object already under their digest.

        A poisoned instance touches nothing; otherwise the disk follows the put
        whose safety `PutIsSafe` states, and exactly an unknown outcome poisons. */
    method PutBytes(bytes: Bytes, pid: string, sequence: nat, calls: PutCalls)
      returns (r: Result<Digest, CasError>, ghost staging: Option<string>)
      requires pid != "" && AllDigits(pid)
      modifies this, disk
      ensures Fresh(old(disk.dir), staging)
      ensures !old(poisoned) && |bytes| <= MAX_OBJECT_BYTES ==>
        Allocated(old(disk.dir), address(bytes), pid, sequence, staging)
      ensures poisoned == (old(poisoned) || r == Err(OutcomeUnknown))
      ensures old(poisoned) ==> r == Err(OutcomeUnknown) && Passed([])
      ensures !old(poisoned) ==>
        var p := PutObject(address, old(disk.dir), bytes, staging, calls);
        r == p.result && Passed(p.states)
    {
      staging := None;
      if poisoned {
        return Err(OutcomeUnknown), staging;
      }
      if |bytes| > MAX_OBJECT_BYTES {
        return Err(ObjectTooLarge), staging;
      }
      var digest := address(bytes);
      match Now(disk.dir, ObjectName(digest)) {
        case Some(file) =>
          if !Verifies(address, file, digest) {
            return Err(Corrupt), staging;
          }
          if !calls.sync {
            poisoned := true;
            return Err(OutcomeUnknown), staging;
          }
          disk.Sync();
          r := Ok(digest);
        case None =>
          var name := AllocateStaging(digest, pid, sequence);
          staging := name;
          if name.None? || !calls.allocate {
            return Err(Io), staging;
          }
          r := PublishNew(digest, bytes, name.value, calls);
      }
    }
  }
}
