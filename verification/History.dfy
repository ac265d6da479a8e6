/** Replaying a journal over a content store.

  Every operation names the contents before and after it by their storage digest.  Where the
  store gives those contents back, the journal replays forwards from the files it started
  from and backwards to them.
*/
module History {
  import opened Framing
  import opened FileMaps
  import opened Journal
  import JS = JournalStore
  import D = Durability
  import C = Cas
  import opened Proposal
  import opened FileTree
  import A = Apply
  import opened Paths
  import opened Text

  /** What a digest gives back. */
  type Store = Digest -> Option<Bytes>

  type Files = A.Files

  /** What reading from an object directory gives. */
  function StoreOf(address: C.Address, d: D.Directory<C.Object>): Store {
    digest => match C.Get(address, d, digest) case Ok(found) => found case Err(_) => None
  }

  // ---------- closure of a journal in a store ----------

  function DigestsOf(op: JournalOp): seq<Digest> {
    (if op.before.Some? then [op.before.value] else []) + (if op.after.Some? then [op.after.value] else [])
  }

  /** Every digest an operation names resolves in the store. */
  predicate OpResolves(store: Store, op: JournalOp) {
    forall i :: 0 <= i < |DigestsOf(op)| ==> store(DigestsOf(op)[i]).Some?
  }

  predicate Closed(store: Store, ops: seq<JournalOp>) {
    forall i :: 0 <= i < |ops| ==> OpResolves(store, ops[i])
  }

  /** Look up every digest that a journal names. */
  method ValidateObjects(store: Store, ops: seq<JournalOp>) returns (closed: bool)
    ensures closed <==> Closed(store, ops)
  {
    for n := 0 to |ops|
      invariant forall i :: 0 <= i < n ==> OpResolves(store, ops[i])
    {
      var digests := DigestsOf(ops[n]);
      for k := 0 to |digests|
        invariant forall i :: 0 <= i < k ==> store(digests[i]).Some?
      {
        if store(digests[k]).None? {
          return false;
        }
      }
    }
    return true;
  }

  // ---------- replay ----------

  /** Paths as the journal writes them. */
  datatype PathCodec = PathCodec(encode: Path -> Buffer, decode: Buffer -> Path)

  function Fetch(store: Store, digest: Option<Digest>): Option<Bytes> {
    if digest.Some? then store(digest.value) else None
  }

  /** Replay operations in order, fetching what each left behind. */
  function Forward(codec: PathCodec, store: Store, files: Files, ops: seq<JournalOp>): Files {
    if ops == [] then files
    else
      var last := ops[|ops| - 1];
      SetFile(Forward(codec, store, files, ops[..|ops| - 1]), codec.decode(last.path), Fetch(store, last.after))
  }

  /** Take operations back, newest first, fetching what each destroyed. */
  function Backward(codec: PathCodec, store: Store, files: Files, ops: seq<JournalOp>): Files
    decreases ops
  {
    if ops == [] then files
    else
      var last := ops[|ops| - 1];
      Backward(codec, store, SetFile(files, codec.decode(last.path), Fetch(store, last.before)), ops[..|ops| - 1])
  }

  /** The journal leads from `base` to `files` and back, and every digest in it resolves. */
  predicate Replays(codec: PathCodec, store: Store, base: Files, files: Files, ops: seq<JournalOp>) {
    Closed(store, ops) && Forward(codec, store, base, ops) == files && Backward(codec, store, files, ops) == base
  }

  lemma {:induction false} ForwardAppend(codec: PathCodec, store: Store, files: Files, a: seq<JournalOp>,
                                         b: seq<JournalOp>)
    ensures Forward(codec, store, files, a + b) == Forward(codec, store, Forward(codec, store, files, a), b)
  {
    if b == [] {
      assert a + b == a;
    } else {
      assert (a + b)[..|a + b| - 1] == a + b[..|b| - 1];
      ForwardAppend(codec, store, files, a, b[..|b| - 1]);
    }
  }

  lemma {:induction false} BackwardAppend(codec: PathCodec, store: Store, files: Files, a: seq<JournalOp>,
                                          b: seq<JournalOp>)
    ensures Backward(codec, store, files, a + b) == Backward(codec, store, Backward(codec, store, files, b), a)
    decreases b
  {
    if b == [] {
      assert a + b == a;
    } else {
      var last := b[|b| - 1];
      assert (a + b)[..|a + b| - 1] == a + b[..|b| - 1];
      BackwardAppend(codec, store, SetFile(files, codec.decode(last.path), Fetch(store, last.before)), a, b[..|b| - 1]);
    }
  }

  lemma ReplaysAppend(codec: PathCodec, store: Store, base: Files, files: Files, after: Files, ops: seq<JournalOp>,
                      more: seq<JournalOp>)
    requires Replays(codec, store, base, files, ops) && Replays(codec, store, files, after, more)
    ensures Replays(codec, store, base, after, ops + more)
  {
    ForwardAppend(codec, store, base, ops, more);
    BackwardAppend(codec, store, after, ops, more);
  }

  /** Both stores give the same for every digest of the journal. */
  predicate Agrees(a: Store, b: Store, ops: seq<JournalOp>) {
    forall i, k :: 0 <= i < |ops| && 0 <= k < |DigestsOf(ops[i])| ==> b(DigestsOf(ops[i])[k]) == a(DigestsOf(ops[i])[k])
  }

  lemma OpFetches(a: Store, b: Store, ops: seq<JournalOp>, i: nat)
    requires Agrees(a, b, ops) && i < |ops|
    ensures Fetch(b, ops[i].before) == Fetch(a, ops[i].before) && Fetch(b, ops[i].after) == Fetch(a, ops[i].after)
    ensures OpResolves(a, ops[i]) ==> OpResolves(b, ops[i])
  {
    var digests := DigestsOf(ops[i]);
    assert ops[i].before.Some? ==> digests[0] == ops[i].before.value;
    assert ops[i].after.Some? ==> digests[|digests| - 1] == ops[i].after.value;
    forall k | 0 <= k < |digests| ensures b(digests[k]) == a(digests[k]) {
    }
  }

  lemma {:induction false} SameReplay(codec: PathCodec, a: Store, b: Store, files: Files, ops: seq<JournalOp>)
    requires Agrees(a, b, ops)
    ensures Forward(codec, b, files, ops) == Forward(codec, a, files, ops)
    ensures Backward(codec, b, files, ops) == Backward(codec, a, files, ops)
    decreases ops
  {
    if ops != [] {
      var front, last := ops[..|ops| - 1], ops[|ops| - 1];
      OpFetches(a, b, ops, |ops| - 1);
      assert Agrees(a, b, front) by {
        forall i, k | 0 <= i < |front| && 0 <= k < |DigestsOf(front[i])|
          ensures b(DigestsOf(front[i])[k]) == a(DigestsOf(front[i])[k])
        {
          assert front[i] == ops[i];
        }
      }
      SameReplay(codec, a, b, files, front);
      SameReplay(codec, a, b, SetFile(files, codec.decode(last.path), Fetch(a, last.before)), front);
    }
  }

  lemma ReplaysElsewhere(codec: PathCodec, a: Store, b: Store, base: Files, files: Files, ops: seq<JournalOp>)
    requires Replays(codec, a, base, files, ops) && Agrees(a, b, ops)
    ensures Replays(codec, b, base, files, ops)
  {
    SameReplay(codec, a, b, base, ops);
    SameReplay(codec, a, b, files, ops);
    forall i | 0 <= i < |ops| ensures OpResolves(b, ops[i]) {
      OpFetches(a, b, ops, i);
    }
  }

  // ---------- one batch ----------

  /** What a mutation leaves at its path. */
  function Left(m: Mutation): Option<Bytes> {
    match m case Write(content) => Some(content) case Delete => None
  }

  /** The files after a batch, one operation after another. */
  function Patched(files: Files, ops: seq<Op>): Files {
    if ops == [] then files
    else
      var last := ops[|ops| - 1];
      SetFile(Patched(files, ops[..|ops| - 1]), last.path, Left(last.mutation))
  }

  lemma {:induction false} ApplyAllSplit(t: Tree, ops: seq<Op>, n: nat)
    requires n <= |ops|
    ensures ApplyAll(t, ops) ==
      match ApplyAll(t, ops[..n]) case Some(u) => ApplyAll(u, ops[n..]) case None => None
    decreases n
  {
    if n == 0 {
      assert ops[..0] == [] && ops[0..] == ops;
    } else {
      assert ops[..n][0] == ops[0] && ops[..n][1..] == ops[1..][..n - 1] && ops[1..][n - 1..] == ops[n..];
      if CanApply(t, ops[0]) {
        ApplyAllSplit(Applied(t, ops[0]), ops[1..], n - 1);
      }
    }
  }

  /** Applying a batch to a tree patches its files. */
  lemma {:induction false} ApplyPatches(t: Tree, ops: seq<Op>, u: Tree)
    requires ApplyAll(t, ops) == Some(u)
    ensures A.FilesOf(u) == Patched(A.FilesOf(t), ops)
    decreases ops
  {
    if ops != [] {
      var n := |ops| - 1;
      ApplyAllSplit(t, ops, n);
      assert ops[n..] == [ops[n]] && ops[n..][1..] == [];
      var middle := ApplyAll(t, ops[..n]).value;
      ApplyPatches(t, ops[..n], middle);
      match ops[n].mutation
      case Write(content) => A.WrittenFiles(middle, ops[n].path, content);
      case Delete => A.RemovedFiles(middle, ops[n].path);
    }
  }

  predicate DistinctPaths(ops: seq<Op>) {
    forall i, j :: 0 <= i < j < |ops| ==> ops[i].path != ops[j].path
  }

  /** What admission guarantees of a batch against the active files. */
  predicate Admitted(codec: PathCodec, files: Files, ops: seq<Op>) {
    && DistinctPaths(ops)
    && forall i :: 0 <= i < |ops| ==>
         (ops[i].mutation.Delete? ==> ops[i].path in files) && RoundTrips(codec, ops[i].path)
  }

  /** The operations of a validated batch under its normalised paths. */
  function BatchOps(paths: seq<string>, patches: seq<Hunk>): (ops: seq<Op>)
    requires |paths| == |patches|
    ensures |ops| == |patches|
  {
    seq(|patches|, i requires 0 <= i < |patches| => Op(Segments(paths[i]), patches[i].mutation))
  }

  /** The path comes back from the journal as it was written. */
  predicate RoundTrips(codec: PathCodec, path: Path) {
    codec.decode(codec.encode(path)) == path
  }

  /** Why a batch is refused: two operations share a path, a deletion names a file that is not
      there, or the journal cannot carry a path. */
  ghost predicate Unfit(codec: PathCodec, files: Files, ops: seq<Op>) {
    || (exists i, j :: 0 <= i < j < |ops| && ops[i].path == ops[j].path)
    || (exists i :: 0 <= i < |ops| && ops[i].mutation.Delete? && ops[i].path !in files)
    || (exists i :: 0 <= i < |ops| && !RoundTrips(codec, ops[i].path))
  }

  lemma AdmittedExactly(codec: PathCodec, files: Files, ops: seq<Op>)
    ensures Admitted(codec, files, ops) <==> !Unfit(codec, files, ops)
  {
  }

  /** A batch that validation accepts against these files has distinct paths and deletes files
      that are there; a write may make a new one. */
  lemma ValidatedBatch(nfc: string -> string, fold: Fold, grant: seq<string>, patches: seq<Hunk>, codec: PathCodec,
                       files: Files)
    requires BatchAdmitted(nfc, fold, grant, patches, path => Segments(path) in files)
    ensures Unfit(codec, files, BatchOps(Normalized(nfc, patches), patches)) <==>
      exists i :: 0 <= i < |patches| && !RoundTrips(codec, Segments(nfc(patches[i].path)))
  {
    var paths, keys := Normalized(nfc, patches), FoldedPaths(nfc, fold, patches);
    var ops := BatchOps(paths, patches);
    forall i, j | 0 <= i < j < |ops| ensures ops[i].path != ops[j].path {
      assert keys[i] != keys[j];
      JoinSplit(paths[i], '/');
      JoinSplit(paths[j], '/');
    }
    forall i | 0 <= i < |ops| && ops[i].mutation.Delete? ensures ops[i].path in files {
      assert HunkAdmitted(nfc, grant, path => Segments(path) in files, patches[i]);
    }
    assert forall i :: 0 <= i < |ops| ==> ops[i].path == Segments(nfc(patches[i].path));
  }

  function AddressOf(address: C.Address, bytes: Option<Bytes>): Option<Digest> {
    match bytes case Some(b) => Some(address(b)) case None => None
  }

  /** The journal's record of an operation: digests of the contents before and after it. */
  function MutationFor(address: C.Address, codec: PathCodec, files: Files, op: Op): JS.JournalMutation
    requires op.mutation.Delete? ==> op.path in files
  {
    match op.mutation
    case Write(content) => JS.WriteMutation(codec.encode(op.path), AddressOf(address, Lookup(files, op.path)),
      address(content))
    case Delete => JS.DeleteMutation(codec.encode(op.path), address(files[op.path]))
  }

  function MutationsFor(address: C.Address, codec: PathCodec, files: Files,
                        ops: seq<Op>): (mutations: seq<JS.JournalMutation>)
    requires Admitted(codec, files, ops)
    ensures |mutations| == |ops|
  {
    seq(|ops|, i requires 0 <= i < |ops| => MutationFor(address, codec, files, ops[i]))
  }

  /** The contents a batch stores for one operation: what it destroys, then what it writes. */
  function BytesFor(files: Files, op: Op): seq<Bytes> {
    (if op.path in files then [files[op.path]] else []) + (if op.mutation.Write? then [op.mutation.content] else [])
  }

  /** The store gives these very bytes back under their digest. */
  predicate Holds(address: C.Address, store: Store, bytes: Bytes) {
    store(address(bytes)) == Some(bytes)
  }

  ghost predicate HoldsFor(address: C.Address, store: Store, files: Files, op: Op) {
    forall b :: b in BytesFor(files, op) ==> Holds(address, store, b)
  }

  /** This journal operation records this change to these files. */
  predicate RecordsChange(address: C.Address, codec: PathCodec, files: Files, op: Op, entry: JournalOp) {
    && codec.decode(entry.path) == op.path && entry.before == AddressOf(address, Lookup(files, op.path))
    && entry.after == AddressOf(address, Left(op.mutation))
  }

  ghost predicate RecordsAll(address: C.Address, codec: PathCodec, files: Files, ops: seq<Op>,
                             entries: seq<JournalOp>) {
    |entries| == |ops| && forall i :: 0 <= i < |ops| ==> RecordsChange(address, codec, files, ops[i], entries[i])
  }

  lemma OpsRecord(address: C.Address, codec: PathCodec, files: Files, ops: seq<Op>, start: nat)
    requires Admitted(codec, files, ops) && start + |ops| <= TWO_TO_THE_64
    ensures RecordsAll(address, codec, files, ops, JS.OpsFor(start, MutationsFor(address, codec, files, ops)))
  {
  }

  lemma {:induction false} PatchedElsewhere(files: Files, ops: seq<Op>, path: Path)
    requires forall i :: 0 <= i < |ops| ==> ops[i].path != path
    ensures Lookup(Patched(files, ops), path) == Lookup(files, path)
  {
    if ops != [] {
      PatchedElsewhere(files, ops[..|ops| - 1], path);
    }
  }

  lemma ChangeResolves(address: C.Address, codec: PathCodec, store: Store, files: Files, op: Op, entry: JournalOp)
    requires RecordsChange(address, codec, files, op, entry) && HoldsFor(address, store, files, op)
    ensures OpResolves(store, entry)
    ensures Fetch(store, entry.before) == Lookup(files, op.path) && Fetch(store, entry.after) == Left(op.mutation)
  {
    if op.path in files {
      assert BytesFor(files, op)[0] == files[op.path] && Holds(address, store, files[op.path]);
    }
    if op.mutation.Write? {
      var contents := BytesFor(files, op);
      assert contents[|contents| - 1] == op.mutation.content && Holds(address, store, op.mutation.content);
    }
  }

  /** Replaying a batch's record forwards applies the batch; taking it back undoes it. */
  lemma {:induction false} BatchReplays(address: C.Address, codec: PathCodec, store: Store, files: Files, ops: seq<Op>,
                                        entries: seq<JournalOp>)
    requires DistinctPaths(ops) && RecordsAll(address, codec, files, ops, entries)
    requires forall i :: 0 <= i < |ops| ==> HoldsFor(address, store, files, ops[i])
    ensures Replays(codec, store, files, Patched(files, ops), entries)
  {
    if ops != [] {
      var n := |ops| - 1;
      var front, last, entry := ops[..n], ops[n], entries[n];
      assert RecordsChange(address, codec, files, last, entry) && HoldsFor(address, store, files, last);
      BatchReplays(address, codec, store, files, front, entries[..n]);
      ChangeResolves(address, codec, store, files, last, entry);
      PatchedElsewhere(files, front, last.path);
      SetFileUndoes(Patched(files, front), Patched(files, ops), last.path);
      ClosedExtends(store, entries[..n], entry);
      assert entries == entries[..n] + [entry];
    }
  }

  lemma ClosedExtends(store: Store, entries: seq<JournalOp>, entry: JournalOp)
    requires Closed(store, entries) && OpResolves(store, entry)
    ensures Closed(store, entries + [entry])
  {
  }
}
