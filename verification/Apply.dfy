/** Applying a batch in place, and rolling it back.

  Any system call may fail.  A failing write may have made some directories and left any
  bytes in its file; what rollback restores is file contents.
*/
module Apply {
  import opened Framing
  import opened FileMaps
  import opened Proposal
  import opened FileTree

  /** Where a write fails: making the directory at depth `folders`, or at the leaf, leaving
      `leaf` bytes there if any. */
  datatype Fault = Fault(folders: nat, leaf: Option<Bytes>)

  datatype StageError =
    | Clash           // a file where a directory must be, or a directory where a file must be
    | Missing         // no such file
    | MissingParent   // the directory of the file does not exist
    | IoFailed

  /** File contents, by path. */
  type Files = map<Path, Bytes>

  function FilesOf(t: Tree): Files {
    map p | p in t && t[p].File? :: t[p].bytes
  }

  type Entry = (Below, Option<Bytes>)

  /** Put recorded contents back, entry by entry. */
  function Undo(f: Files, entries: seq<Entry>): Files
    decreases entries
  {
    if entries == [] then f else Undo(SetFile(f, entries[0].0, entries[0].1), entries[1..])
  }

  function Reversed(entries: seq<Entry>): (r: seq<Entry>)
    ensures |r| == |entries|
    ensures forall e :: e in r <==> e in entries
  {
    if entries == [] then [] else [entries[|entries| - 1]] + Reversed(entries[..|entries| - 1])
  }

  // ---------- clashes ----------

  /** Some directory of the path is a file. */
  predicate FileAbove(t: Tree, p: Path) {
    exists i :: 0 < i < |p| && IsFile(t, p[..i])
  }

  lemma UnclashedIs(t: Tree, p: Below)
    ensures Unclashed(t, p) <==> !FileAbove(t, p) && !IsFolder(t, p)
  {
    forall q | Above(q, p) && IsFile(t, q) ensures FileAbove(t, p) {
      assert q == p[..|q|];
    }
    forall i | 0 < i < |p| && IsFile(t, p[..i]) ensures !Unclashed(t, p) {
      assert Above(p[..i], p);
    }
  }

  ghost predicate AllUnclashed(t: Tree, entries: seq<Entry>) {
    forall e :: e in entries ==> Unclashed(t, e.0)
  }

  /** A change that touches only `p` and folders above it. */
  ghost predicate Touches(t: Tree, u: Tree, p: Path) {
    forall q :: At(u, q) != At(t, q) ==>
      || (q == p && !IsFolder(u, p))
      || (Above(q, p) && At(t, q).None? && IsFolder(u, q))
  }

  lemma TouchesOnlyAt(t: Tree, u: Tree, p: Path)
    requires Touches(t, u, p)
    ensures OnlyAt(FilesOf(t), FilesOf(u), p)
  {
    forall q | q != p ensures Lookup(FilesOf(t), q) == Lookup(FilesOf(u), q) {
      if q != [] {
        assert At(u, q) != At(t, q) ==> At(t, q).None? && IsFolder(u, q);
      }
    }
  }

  /** A change at `p` keeps every path free that is `p` itself or apart from it. */
  lemma TouchesKeepsUnclashed(t: Tree, u: Tree, p: Below, q: Below)
    requires Touches(t, u, p) && Unclashed(t, q) && Unclashed(t, p) && (q == p || Apart(p, q))
    ensures Unclashed(u, q)
  {
    forall r | Above(r, q) ensures !IsFile(u, r) {
      if At(u, r) != At(t, r) {
        assert r != p;
      }
    }
  }

  // ---------- parents ----------

  /** The directory of `p` exists. */
  predicate HasParent(t: Tree, p: Below) {
    IsFolder(t, p[..|p| - 1])
  }

  ghost predicate SameFolders(t: Tree, u: Tree) {
    forall q :: IsFolder(u, q) <==> IsFolder(t, q)
  }

  ghost predicate KeepsFolders(t: Tree, u: Tree) {
    forall q :: IsFolder(t, q) ==> IsFolder(u, q)
  }

  /** Making the directory at depth `folders` is needed, and fails. */
  predicate FolderFails(t: Tree, p: Below, fault: Option<Fault>) {
    fault.Some? && 0 < fault.value.folders < |p| && At(t, p[..fault.value.folders]).None?
  }

  lemma ParentHasAll(t: Tree, p: Below)
    requires WellFormed(t) && HasParent(t, p)
    ensures forall q :: Above(q, p) ==> IsFolder(t, q)
    ensures MakeFolders(t, p) == t
  {
    var parent := p[..|p| - 1];
    forall q | Above(q, p) ensures IsFolder(t, q) {
      if q != parent {
        assert parent in t && Above(q, parent);
      }
    }
    SameEntries(MakeFolders(t, p), t);
  }

  /** Below an absent directory nothing exists. */
  lemma NothingBelow(t: Tree, p: Path, i: nat)
    requires WellFormed(t) && 0 < i < |p| && At(t, p[..i]).None?
    ensures At(t, p).None? && At(t, p[..|p| - 1]).None?
  {
    assert Above(p[..i], p);
    if i < |p| - 1 {
      assert Above(p[..i], p[..|p| - 1]);
    }
  }

  lemma OrphanIsAbsent(t: Tree, p: Below)
    requires WellFormed(t) && !HasParent(t, p)
    ensures At(t, p).None?
  {
    assert Above(p[..|p| - 1], p);
  }

  lemma TouchesKeepsFolders(t: Tree, u: Tree, p: Path)
    requires Touches(t, u, p) && !IsFolder(t, p)
    ensures KeepsFolders(t, u)
  {
  }

  // ---------- the staged tree ----------

  class StagedRoot {
    var tree: Tree

    constructor (tree: Tree)
      ensures this.tree == tree
    {
      this.tree := tree;
    }

    /** The file at `p`, or `None` where nothing is. */
    method Read(p: Below, fails: bool) returns (r: Result<Option<Bytes>, StageError>)
      ensures r.Ok? <==> !fails && Unclashed(tree, p)
      ensures r.Ok? ==> r.value == Lookup(FilesOf(tree), p)
    {
      UnclashedIs(tree, p);
      if fails {
        return Err(IoFailed);
      }
      if FileAbove(tree, p) || IsFolder(tree, p) {
        return Err(Clash);
      }
      return Ok(if p in tree then Some(tree[p].bytes) else None);
    }

    /** Walk the directories of `p`, making those that are absent. */
    method EnsureFolders(p: Below, fault: Option<Fault>) returns (r: Result<(), StageError>)
      requires WellFormed(tree)
      modifies this
      ensures WellFormed(tree)
      ensures r.Ok? ==> tree == MakeFolders(old(tree), p) && !FileAbove(old(tree), p)
      ensures r == Err(Clash) ==> FileAbove(old(tree), p) && tree == old(tree)
      ensures r.Err? ==> r.error in {Clash, IoFailed}
      ensures r == Err(IoFailed) ==> FolderFails(old(tree), p, fault) && !HasParent(tree, p)
      ensures Unclashed(old(tree), p) ==> (r.Err? <==> FolderFails(old(tree), p, fault))
      ensures Touches(old(tree), tree, p) && At(tree, p) == At(old(tree), p)
    {
      ghost var start := tree;
      assert MadeUpTo(start, tree, p, 1);
      for i := 1 to |p|
        invariant WellFormed(tree) && MadeUpTo(start, tree, p, i)
        invariant FolderFails(start, p, fault) ==> fault.value.folders >= i
      {
        var folder := p[..i];
        match At(tree, folder) {
          case Some(File(_)) =>
            NothingMade(start, tree, p, i);
            return Err(Clash);
          case Some(Folder) =>
            AlreadyMade(start, tree, p, i);
          case None =>
            if fault.Some? && fault.value.folders == i {
              MadeTouches(start, tree, p, i);
              NothingBelow(start, p, i);
              return Err(IoFailed);
            }
            MakeOneFolder(start, tree, p, i);
            tree := tree[folder := Folder];
        }
      }
      MadeTouches(start, tree, p, |p|);
      FoldersMade(start, tree, p);
      return Ok(());
    }

    /** Create or replace the file at `p`. */
    method Write(p: Below, bytes: Bytes, fault: Option<Fault>) returns (r: Result<(), StageError>)
      requires WellFormed(tree)
      modifies this
      ensures WellFormed(tree) && Touches(old(tree), tree, p)
      ensures r.Ok? ==>
        fault.None? && Unclashed(old(tree), p) && tree == Applied(old(tree), Op(p, Mutation.Write(bytes)))
      ensures r == Err(Clash) ==> !Unclashed(old(tree), p)
      ensures r.Err? ==> r.error in {Clash, IoFailed}
      ensures r == Err(IoFailed) ==> fault.Some?
      ensures Unclashed(old(tree), p) ==> (HasParent(tree, p) <==> !FolderFails(old(tree), p, fault))
    {
      ghost var start := tree;
      UnclashedIs(start, p);
      var made := EnsureFolders(p, fault);
      if made.Err? {
        return made;
      }
      MadeHasParent(start, p);
      if IsFolder(tree, p) {
        return Err(Clash);
      }
      if fault.Some? {
        if fault.value.leaf.Some? {
          PlacedKeeps(start, tree, p, fault.value.leaf.value);
          tree := tree[p := File(fault.value.leaf.value)];
        }
        return Err(IoFailed);
      }
      PlacedKeeps(start, tree, p, bytes);
      tree := tree[p := File(bytes)];
      return Ok(());
    }

    /** Remove the file at `p`. */
    method Unlink(p: Below, fails: bool) returns (r: Result<(), StageError>)
      requires WellFormed(tree)
      modifies this
      ensures WellFormed(tree) && Touches(old(tree), tree, p)
      ensures r.Ok? ==> IsFile(old(tree), p) && tree == Applied(old(tree), Op(p, Delete))
      ensures r.Err? ==> tree == old(tree)
      ensures r == Err(Missing) ==> At(tree, p).None? && HasParent(tree, p)
      ensures r == Err(Clash) ==> !Unclashed(tree, p)
      ensures r == Err(MissingParent) ==> !HasParent(tree, p)
      ensures r.Ok? ==> !fails
      ensures !fails ==> (r.Ok? <==> IsFile(old(tree), p)) && r != Err(IoFailed)
      ensures HasParent(tree, p) == HasParent(old(tree), p)
    {
      UnclashedIs(tree, p);
      var parent := p[..|p| - 1];
      assert Above(parent, p);
      if !IsFolder(tree, parent) {
        return Err(if FileAbove(tree, p) then Clash else MissingParent);
      }
      if p !in tree {
        return Err(Missing);
      }
      if tree[p].Folder? {
        return Err(Clash);
      }
      if fails {
        return Err(IoFailed);
      }
      RemovedKeeps(tree, p);
      tree := tree - {p};
      return Ok(());
    }

    /** Put recorded contents back at one path. */
    method RestoreEntry(e: Entry, fault: Option<Fault>) returns (r: Result<(), StageError>)
      requires WellFormed(tree)
      modifies this
      ensures WellFormed(tree) && Touches(old(tree), tree, e.0)
      ensures r.Ok? ==> FilesOf(tree) == SetFile(FilesOf(old(tree)), e.0, e.1)
      ensures r == Err(Clash) ==> !Unclashed(old(tree), e.0)
      ensures fault.None? && Ready(old(tree), e) ==>
        && FilesOf(tree) == SetFile(FilesOf(old(tree)), e.0, e.1) && SameFolders(old(tree), tree)
        && (r.Ok? <==> HasParent(old(tree), e.0))
    {
      ghost var start := tree;
      if HasParent(tree, e.0) {
        ParentHasAll(tree, e.0);
      } else {
        OrphanIsAbsent(tree, e.0);
      }
      match e.1 {
        case Some(bytes) =>
          r := Write(e.0, bytes, fault);
          if r.Ok? {
            WrittenFiles(start, e.0, bytes);
          }
        case None =>
          r := Unlink(e.0, fault.Some?);
          if r.Ok? {
            RemovedFiles(start, e.0);
          } else {
            assert At(start, e.0).None? ==> FilesOf(start) - {e.0} == FilesOf(start);
            if r.error == Missing {
              r := Ok(());
            }
          }
      }
    }

    /** Restore entries in the order given; every failure is collected.

        Whatever fails, each file without a failure has its recorded contents.  With working
        calls all files have, and a failure only says that the directory of a file that must
        be absent is absent too. */
    method Restore(entries: seq<Entry>, faults: nat -> Option<Fault>) returns (failures: seq<(Below, StageError)>)
      requires WellFormed(tree)
      modifies this
      ensures WellFormed(tree)
      ensures Agree(FilesOf(tree), Undo(FilesOf(old(tree)), entries), failures)
      ensures AllNamed(failures, entries)
      ensures Unobstructed(old(tree), entries) ==> NoClash(failures)
      ensures Calm(old(tree), entries, faults) ==>
        && FilesOf(tree) == Undo(FilesOf(old(tree)), entries)
        && (failures == [] <==> AllHaveParents(old(tree), entries))
        && Calm(tree, entries, faults) && AllOrphans(tree, failures)
    {
      failures := [];
      ghost var start, free, calm := tree, Unobstructed(tree, entries), Calm(tree, entries, faults);
      for n := 0 to |entries|
        invariant WellFormed(tree) && AllNamed(failures, entries)
        invariant Agree(Undo(FilesOf(tree), entries[n..]), Undo(FilesOf(start), entries), failures)
        invariant free ==> Unobstructed(tree, entries) && NoClash(failures)
        invariant calm ==>
          SameFolders(start, tree) && Undo(FilesOf(tree), entries[n..]) == Undo(FilesOf(start), entries)
        invariant calm ==> (failures == [] <==> AllHaveParents(start, entries[..n])) && AllOrphans(start, failures)
      {
        ghost var before, failed := tree, failures;
        var r := RestoreEntry(entries[n], faults(n));
        EntryKeepsUnobstructed(before, tree, entries, n);
        if r.Err? {
          failures := failures + [(entries[n].0, r.error)];
        }
        RestoreStep(before, tree, entries, n, Undo(FilesOf(start), entries), failed, failures);
        CalmStep(start, before, entries, n);
      }
    }

    /** Read what an operation is about to change, then carry it out. */
    method ApplyOne(op: Op, faults: StepFaults) returns (r: Result<(), StageError>, prior: Option<Entry>)
      requires WellFormed(tree)
      modifies this
      ensures WellFormed(tree) && Touches(old(tree), tree, op.path)
      ensures prior.None? ==> r.Err? && tree == old(tree)
      ensures prior.Some? ==>
        Unclashed(old(tree), op.path) && prior.value == (op.path, Lookup(FilesOf(old(tree)), op.path))
      ensures r.Ok? ==> faults == WORKS && prior.Some? && CanApply(old(tree), op) && tree == Applied(old(tree), op)
      ensures faults == WORKS ==> (r.Ok? <==> CanApply(old(tree), op))
      ensures r.Ok? ==> HasParent(tree, op.path)
      ensures prior.Some? && prior.value.1.Some? ==> HasParent(tree, op.path)
      ensures prior.Some? && !HasParent(tree, op.path) <==> Strands(old(tree), op, faults)
    {
      FileIsUnclashed(tree, op.path);
      FileHasParent(tree, op.path);
      var read := Read(op.path, faults.read);
      if read.Err? {
        return Err(read.error), None;
      }
      prior := Some((op.path, read.value));
      r := Change(op, faults.change);
    }

    /** Apply operations in order, recording prior contents before each change.

        Whatever fails, putting the record back newest first gives the original files;
        without failure the tree is the one the operations denote. */
    method ApplyEach(ops: seq<Op>, faults: nat -> StepFaults)
      returns (r: Result<(), StageError>, applied: seq<Entry>, ghost at: nat, ghost met: Tree)
      requires WellFormed(tree)
      modifies this
      ensures WellFormed(tree)
      ensures Undo(FilesOf(tree), Reversed(applied)) == FilesOf(old(tree))
      ensures r.Ok? ==> ApplyAll(old(tree), ops) == Some(tree)
      ensures AllWork(faults) ==> (r.Ok? <==> ApplyAll(old(tree), ops).Some?)
      ensures AllApart(ops) ==> Unobstructed(tree, applied)
      ensures r.Ok? ==> Worked(faults, |ops|)
      ensures r.Err? ==> Stopped(old(tree), ops, faults, at, met) && SomeHaveParents(tree, applied)
      ensures r.Err? ==> (AllHaveParents(tree, applied) <==> !Strands(met, ops[at], faults(at)))
    {
      ghost var start := tree;
      applied, at, met := [], 0, tree;
      for n := 0 to |ops|
        invariant WellFormed(tree) && Progress(start, tree, ops, n, applied) && Worked(faults, n)
      {
        at, met := n, tree;
        ghost var earlier := applied;
        var prior: Option<Entry>;
        r, prior := ApplyOne(ops[n], faults(n));
        if prior.Some? {
          applied := applied + [prior.value];
        }
        if r.Err? {
          ProgressStops(start, met, tree, ops, n, earlier, prior, applied);
          return r, applied, at, met;
        }
        ProgressOn(start, met, tree, ops, n, earlier, applied);
      }
      assert ops[..|ops|] == ops;
      return Ok(()), applied, at, met;
    }

    /** Carry out one operation. */
    method Change(op: Op, fault: Option<Fault>) returns (r: Result<(), StageError>)
      requires WellFormed(tree)
      modifies this
      ensures WellFormed(tree) && Touches(old(tree), tree, op.path)
      ensures r.Ok? ==> fault.None? && CanApply(old(tree), op) && tree == Applied(old(tree), op)
      ensures fault.None? ==> (r.Ok? <==> CanApply(old(tree), op))
      ensures Unclashed(old(tree), op.path) ==> (HasParent(tree, op.path) <==>
        if op.mutation.Delete? then HasParent(old(tree), op.path) else !FolderFails(old(tree), op.path, fault))
    {
      match op.mutation {
        case Write(content) => r := Write(op.path, content, fault);
        case Delete => r := Unlink(op.path, fault.Some?);
      }
    }

    /** Apply a batch, or roll it back.

        After a failure every file that `undo` does not name has its contents from before the
        batch, and `undo` holds the contents of the others.  With working repairs and paths
        apart all files have, and `undo` is empty exactly when the operation that failed did
        not strand: an entry is left over only for a file that did not exist and whose
        directory does not exist either. */
    method ApplyBatch(ops: seq<Op>, faults: nat -> StepFaults, repairs: nat -> Option<Fault>)
      returns (r: Result<(), StageError>, undo: seq<Entry>, failures: seq<(Below, StageError)>, ghost at: nat,
        ghost met: Tree)
      requires WellFormed(tree)
      modifies this
      ensures WellFormed(tree)
      ensures r.Ok? ==>
        ApplyAll(old(tree), ops) == Some(tree) && Undo(FilesOf(tree), Reversed(undo)) == FilesOf(old(tree))
      ensures r.Err? ==> LeftToUndo(FilesOf(old(tree)), FilesOf(tree), undo) && |undo| == |failures|
      ensures r.Err? && AllApart(ops) ==> NoClash(failures)
      ensures AllWork(faults) ==> (r.Ok? <==> ApplyAll(old(tree), ops).Some?)
      ensures r.Ok? ==> Worked(faults, |ops|)
      ensures r.Err? ==> Stopped(old(tree), ops, faults, at, met)
      ensures r.Err? && AllApart(ops) && (forall n :: repairs(n).None?) ==>
        && FilesOf(tree) == FilesOf(old(tree)) && (undo == [] <==> !Strands(met, ops[at], faults(at)))
        && Calm(tree, undo, repairs) && (forall e :: e in undo ==> !HasParent(tree, e.0))
    {
      var applied: seq<Entry>;
      ghost var original := FilesOf(tree);
      r, applied, at, met := ApplyEach(ops, faults);
      failures := [];
      if r.Ok? {
        return r, applied, failures, at, met;
      }
      ghost var stopped := tree;
      failures := Restore(Reversed(applied), repairs);
      ReversedHave(stopped, applied);
      undo := Leftover(applied, failures);
      LeftoverIsLeft(original, FilesOf(stopped), FilesOf(tree), applied, failures, undo);
      ReversedHave(tree, applied);
      LeftoverIsCalm(tree, applied, failures, undo);
    }

    /** Restore what a failed batch left over, once more from the outermost root, which may not
        open; `None` in the answer means that every file is as before the batch. */
    method RestoreAll(undo: seq<Entry>, opens: bool, repairs: nat -> Option<Fault>, ghost original: Files)
      returns (refused: Option<seq<(Below, StageError)>>)
      requires WellFormed(tree) && LeftToUndo(original, FilesOf(tree), undo)
      modifies this
      ensures WellFormed(tree) && LeftToUndo(original, FilesOf(tree), undo)
      ensures refused.None? ==> FilesOf(tree) == original
      ensures undo == [] ==> refused.None? && tree == old(tree)
      ensures opens && Calm(old(tree), undo, repairs) ==>
        FilesOf(tree) == original && (refused.None? <==> AllHaveParents(old(tree), undo))
    {
      if undo == [] {
        SameFiles(FilesOf(tree), original);
        return None;
      }
      if !opens {
        return Some([]);
      }
      ghost var before := tree;
      LeftUndoes(original, FilesOf(tree), undo);
      ReversedHave(tree, undo);
      var failures := Restore(Reversed(undo), repairs);
      AgreeIsLeft(original, FilesOf(tree), undo, failures);
      refused := if failures == [] then None else Some(failures);
    }
  }

  // ---------- what is left to undo ----------

  /** The files agree except at failed paths. */
  ghost predicate Agree(f: Files, g: Files, failures: seq<(Below, StageError)>) {
    forall q :: !FailedAt(failures, q) ==> Lookup(f, q) == Lookup(g, q)
  }

  ghost predicate FailedAt(failures: seq<(Below, StageError)>, q: Path) {
    exists f :: f in failures && f.0 == q
  }

  /** `undo` holds the original contents of the only files that may differ from the original. */
  ghost predicate LeftToUndo(original: Files, now: Files, undo: seq<Entry>) {
    && (forall e :: e in undo ==> e.1 == Lookup(original, e.0))
    && (forall q :: !NamedAt(undo, q) ==> Lookup(now, q) == Lookup(original, q))
  }

  ghost predicate NamedAt(entries: seq<Entry>, q: Path) {
    exists e :: e in entries && e.0 == q
  }

  /** The first recorded entry of a path. */
  ghost predicate IsFirst(applied: seq<Entry>, e: Entry) {
    exists j :: 0 <= j < |applied| && applied[j] == e && forall i :: 0 <= i < j ==> applied[i].0 != e.0
  }

  /** The recorded entries whose restoring failed. */
  method Leftover(applied: seq<Entry>, failures: seq<(Below, StageError)>) returns (undo: seq<Entry>)
    requires AllNamed(failures, applied)
    ensures |undo| == |failures|
    ensures forall i :: 0 <= i < |undo| ==> undo[i].0 == failures[i].0 && IsFirst(applied, undo[i])
  {
    undo := [];
    for n := 0 to |failures|
      invariant |undo| == n
      invariant forall i :: 0 <= i < n ==> undo[i].0 == failures[i].0 && IsFirst(applied, undo[i])
    {
      assert failures[n] in failures && NamedAt(applied, failures[n].0);
      var e := FindEntry(applied, failures[n].0);
      if e.Some? {
        undo := undo + [e.value];
      }
    }
  }

  lemma {:induction false} UndoElsewhere(f: Files, entries: seq<Entry>, q: Path)
    requires !NamedAt(entries, q)
    ensures Lookup(Undo(f, entries), q) == Lookup(f, q)
    decreases entries
  {
    if entries != [] {
      assert entries[0] in entries;
      forall e | e in entries[1..] ensures e.0 != q {
        assert e in entries;
      }
      UndoElsewhere(SetFile(f, entries[0].0, entries[0].1), entries[1..], q);
    }
  }

  lemma {:induction false} UndoOnlyAt(f: Files, g: Files, entries: seq<Entry>, p: Path)
    requires OnlyAt(f, g, p)
    ensures OnlyAt(Undo(f, entries), Undo(g, entries), p)
    decreases entries
  {
    if entries != [] {
      UndoOnlyAt(SetFile(f, entries[0].0, entries[0].1), SetFile(g, entries[0].0, entries[0].1), entries[1..], p);
    }
  }

  /** Taking a record back newest first ends with the first entry of every path. */
  lemma {:induction false} UndoGivesFirst(f: Files, applied: seq<Entry>, e: Entry)
    requires IsFirst(applied, e)
    ensures Lookup(Undo(f, Reversed(applied)), e.0) == e.1
    decreases applied
  {
    var j :| 0 <= j < |applied| && applied[j] == e && forall i :: 0 <= i < j ==> applied[i].0 != e.0;
    var front, last := applied[..|applied| - 1], applied[|applied| - 1];
    var g := SetFile(f, last.0, last.1);
    assert Reversed(applied)[1..] == Reversed(front);
    if j < |front| {
      assert front[j] == e;
      UndoGivesFirst(g, front, e);
    } else {
      forall x | x in Reversed(front) ensures x.0 != e.0 {
        var i :| 0 <= i < |front| && front[i] == x;
        assert applied[i] == x;
      }
      UndoElsewhere(g, Reversed(front), e.0);
    }
  }

  lemma LeftoverIsLeft(original: Files, stopped: Files, now: Files, applied: seq<Entry>,
                       failures: seq<(Below, StageError)>, undo: seq<Entry>)
    requires Undo(stopped, Reversed(applied)) == original && Agree(now, original, failures)
    requires |undo| == |failures|
    requires forall i :: 0 <= i < |undo| ==> undo[i].0 == failures[i].0 && IsFirst(applied, undo[i])
    ensures LeftToUndo(original, now, undo)
  {
    forall e | e in undo ensures e.1 == Lookup(original, e.0) {
      UndoGivesFirst(stopped, applied, e);
    }
    forall q | !NamedAt(undo, q) ensures Lookup(now, q) == Lookup(original, q) {
      forall f | f in failures ensures f.0 != q {
        var i :| 0 <= i < |failures| && failures[i] == f;
        assert undo[i] in undo;
      }
    }
  }

  /** Putting all leftovers back gives the original files. */
  lemma LeftUndoes(original: Files, now: Files, undo: seq<Entry>)
    requires LeftToUndo(original, now, undo)
    ensures Undo(now, Reversed(undo)) == original
  {
    var f := Undo(now, Reversed(undo));
    forall q ensures Lookup(f, q) == Lookup(original, q) {
      if NamedAt(undo, q) {
        var e := FirstAt(undo, q);
        UndoGivesFirst(now, undo, e);
        assert e in undo;
      } else {
        assert !NamedAt(Reversed(undo), q);
        UndoElsewhere(now, Reversed(undo), q);
      }
    }
    SameFiles(f, original);
  }

  lemma {:induction false} FirstAt(entries: seq<Entry>, q: Path) returns (e: Entry)
    requires NamedAt(entries, q)
    ensures IsFirst(entries, e) && e.0 == q
    decreases entries
  {
    if entries[0].0 == q {
      e := entries[0];
    } else {
      var x :| x in entries && x.0 == q;
      assert x in entries[1..];
      e := FirstAt(entries[1..], q);
      var j :| 0 <= j < |entries[1..]| && entries[1..][j] == e && forall i :: 0 <= i < j ==> entries[1..][i].0 != e.0;
      assert entries[j + 1] == e;
      forall i | 0 <= i < j + 1 ensures entries[i].0 != e.0 {
        assert i > 0 ==> entries[i] == entries[1..][i - 1];
      }
    }
  }

  lemma AgreeIsLeft(original: Files, now: Files, undo: seq<Entry>, failures: seq<(Below, StageError)>)
    requires Agree(now, original, failures) && AllNamed(failures, Reversed(undo))
    requires forall e :: e in undo ==> e.1 == Lookup(original, e.0)
    ensures LeftToUndo(original, now, undo)
    ensures failures == [] ==> now == original
  {
    forall q | !NamedAt(undo, q) ensures Lookup(now, q) == Lookup(original, q) {
      forall f | f in failures ensures f.0 != q {
        assert NamedAt(Reversed(undo), f.0);
      }
    }
    if failures == [] {
      SameFiles(now, original);
    }
  }

  // ---------- restoring with working calls ----------

  /** Nothing is in the way of an entry, and what must be written has its directory. */
  ghost predicate Ready(t: Tree, e: Entry) {
    Unclashed(t, e.0) && (e.1.Some? ==> HasParent(t, e.0))
  }

  ghost predicate SomeHaveParents(t: Tree, entries: seq<Entry>) {
    forall e :: e in entries && e.1.Some? ==> HasParent(t, e.0)
  }

  ghost predicate AllHaveParents(t: Tree, entries: seq<Entry>) {
    forall e :: e in entries ==> HasParent(t, e.0)
  }

  /** Every failure is at a path whose directory does not exist. */
  ghost predicate AllOrphans(t: Tree, failures: seq<(Below, StageError)>) {
    forall f :: f in failures ==> !HasParent(t, f.0)
  }

  /** No call fails, and no entry is obstructed or must make directories. */
  ghost predicate Calm(t: Tree, entries: seq<Entry>, faults: nat -> Option<Fault>) {
    (forall n :: faults(n).None?) && Unobstructed(t, entries) && SomeHaveParents(t, entries)
  }

  lemma RestoreStep(t: Tree, u: Tree, entries: seq<Entry>, n: nat, goal: Files, failed: seq<(Below, StageError)>,
                    failures: seq<(Below, StageError)>)
    requires n < |entries| && Touches(t, u, entries[n].0) && Agree(Undo(FilesOf(t), entries[n..]), goal, failed)
    requires failed <= failures && |failures| <= |failed| + 1
    requires failures == failed ==> FilesOf(u) == SetFile(FilesOf(t), entries[n].0, entries[n].1)
    requires failures != failed ==> failures[|failed|].0 == entries[n].0
    ensures Agree(Undo(FilesOf(u), entries[n + 1..]), goal, failures)
    ensures FilesOf(u) == SetFile(FilesOf(t), entries[n].0, entries[n].1) ==>
      Undo(FilesOf(u), entries[n + 1..]) == Undo(FilesOf(t), entries[n..])
  {
    var p, rest := entries[n].0, entries[n + 1..];
    var done := SetFile(FilesOf(t), p, entries[n].1);
    UndoFirst(FilesOf(t), entries, n);
    TouchesOnlyAt(t, u, p);
    UndoOnlyAt(done, FilesOf(u), rest, p);
    forall q | !FailedAt(failures, q) ensures Lookup(Undo(FilesOf(u), rest), q) == Lookup(goal, q) {
      forall f | f in failed ensures f.0 != q {
        assert f in failures;
      }
      assert failures != failed ==> failures[|failed|] in failures;
    }
  }

  lemma LeftoverIsCalm(t: Tree, applied: seq<Entry>, failures: seq<(Below, StageError)>, undo: seq<Entry>)
    requires |undo| == |failures|
    requires forall i :: 0 <= i < |undo| ==> undo[i].0 == failures[i].0 && IsFirst(applied, undo[i])
    ensures Unobstructed(t, applied) ==> Unobstructed(t, undo)
    ensures SomeHaveParents(t, applied) ==> SomeHaveParents(t, undo)
    ensures AllOrphans(t, failures) ==> forall e :: e in undo ==> !HasParent(t, e.0)
  {
    forall e | e in undo ensures e in applied && (AllOrphans(t, failures) ==> !HasParent(t, e.0)) {
      var i :| 0 <= i < |undo| && undo[i] == e;
      assert failures[i] in failures;
    }
  }

  lemma CalmStep(start: Tree, t: Tree, entries: seq<Entry>, n: nat)
    requires n < |entries|
    ensures Unobstructed(t, entries) && SomeHaveParents(start, entries) && SameFolders(start, t)
      ==> Ready(t, entries[n])
    ensures AllHaveParents(start, entries[..n + 1]) <==>
      AllHaveParents(start, entries[..n]) && HasParent(start, entries[n].0)
  {
    assert entries[n] in entries;
    assert entries[..n + 1] == entries[..n] + [entries[n]];
  }

  lemma ReversedHave(t: Tree, applied: seq<Entry>)
    ensures SomeHaveParents(t, Reversed(applied)) <==> SomeHaveParents(t, applied)
    ensures AllHaveParents(t, Reversed(applied)) <==> AllHaveParents(t, applied)
    ensures Unobstructed(t, Reversed(applied)) <==> Unobstructed(t, applied)
    ensures forall q: Below :: NamedAt(Reversed(applied), q) <==> NamedAt(applied, q)
  {
    forall q: Below ensures NamedAt(Reversed(applied), q) <==> NamedAt(applied, q) {
      assert forall e :: e in Reversed(applied) <==> e in applied;
    }
  }

  // ---------- where a batch stops ----------

  /** The operations before `at` were applied, and `met` is the tree that operation `at` met. */
  ghost predicate Stopped(t: Tree, ops: seq<Op>, faults: nat -> StepFaults, at: nat, met: Tree) {
    at < |ops| && ApplyAll(t, ops[..at]) == Some(met) && (faults(at) == WORKS ==> !CanApply(met, ops[at]))
  }

  /** The operation records that no file was there and leaves its directory absent: a deletion
      below a missing directory, or a write that cannot make one. */
  ghost predicate Strands(t: Tree, op: Op, faults: StepFaults) {
    && !faults.read && Unclashed(t, op.path)
    && (if op.mutation.Delete? then !HasParent(t, op.path) else FolderFails(t, op.path, faults.change))
  }

  lemma MadeHasParent(t: Tree, p: Below)
    ensures HasParent(MakeFolders(t, p), p)
    ensures forall bytes :: HasParent(MakeFolders(t, p)[p := File(bytes)], p)
  {
    var parent := p[..|p| - 1];
    assert Above(parent, p);
    assert At(MakeFolders(t, p), parent) == Some(Folder);
  }

  lemma FileHasParent(t: Tree, p: Below)
    requires WellFormed(t)
    ensures IsFile(t, p) ==> HasParent(t, p)
    ensures IsFile(t, p) ==> forall fault :: !FolderFails(t, p, fault)
  {
    assert Above(p[..|p| - 1], p);
    if IsFile(t, p) {
      ParentHasAll(t, p);
    }
  }

  lemma ParentsAfter(t: Tree, u: Tree, earlier: seq<Entry>, p: Below, prior: Option<Bytes>)
    requires Touches(t, u, p) && Unclashed(t, p) && AllHaveParents(t, earlier)
    requires prior.Some? ==> HasParent(u, p)
    ensures SomeHaveParents(u, earlier + [(p, prior)])
    ensures AllHaveParents(u, earlier + [(p, prior)]) <==> HasParent(u, p)
  {
    TouchesKeepsFolders(t, u, p);
    assert (p, prior) in earlier + [(p, prior)];
  }

  lemma {:induction false} ApplyAllSnoc(t: Tree, ops: seq<Op>, n: nat, u: Tree)
    requires n < |ops| && ApplyAll(t, ops[..n]) == Some(u)
    ensures CanApply(u, ops[n]) ==> ApplyAll(t, ops[..n + 1]) == Some(Applied(u, ops[n]))
    decreases n
  {
    if n == 0 {
      assert ops[..1][0] == ops[0] && ops[..1][1..] == [];
    } else {
      assert ops[..n][0] == ops[0] && ops[..n][1..] == ops[1..][..n - 1];
      assert ops[..n + 1][0] == ops[0] && ops[..n + 1][1..] == ops[1..][..n];
      ApplyAllSnoc(Applied(t, ops[0]), ops[1..], n - 1, u);
    }
  }

  datatype StepFaults = StepFaults(read: bool, change: Option<Fault>)

  const WORKS := StepFaults(false, None)

  /** The first `n` operations meet no failing call. */
  predicate Worked(faults: nat -> StepFaults, n: nat) {
    n == 0 || (Worked(faults, n - 1) && faults(n - 1) == WORKS)
  }

  ghost predicate AllWork(faults: nat -> StepFaults) {
    forall n :: faults(n) == WORKS
  }

  /** The first recorded entry for a path. */
  method FindEntry(applied: seq<Entry>, p: Below) returns (e: Option<Entry>)
    ensures e.Some? ==> IsFirst(applied, e.value) && e.value.0 == p
    ensures e.None? ==> forall x :: x in applied ==> x.0 != p
  {
    for n := 0 to |applied|
      invariant forall i :: 0 <= i < n ==> applied[i].0 != p
    {
      if applied[n].0 == p {
        return Some(applied[n]);
      }
    }
    return None;
  }

  /** The entries record the paths of these operations. */
  predicate Records(applied: seq<Entry>, ops: seq<Op>) {
    |applied| == |ops| && forall i :: 0 <= i < |ops| ==> applied[i].0 == ops[i].path
  }

  lemma FileIsUnclashed(t: Tree, p: Below)
    requires WellFormed(t)
    ensures IsFile(t, p) ==> Unclashed(t, p)
  {
  }

  lemma UndoStep(f: Files, g: Files, earlier: seq<Entry>, p: Below)
    requires OnlyAt(f, g, p)
    ensures Undo(g, Reversed(earlier + [(p, Lookup(f, p))])) == Undo(f, Reversed(earlier))
  {
    var entry: Entry := (p, Lookup(f, p));
    var longer := earlier + [entry];
    assert longer[..|longer| - 1] == earlier;
    assert Reversed(longer)[1..] == Reversed(earlier);
    SetFileUndoes(f, g, p);
  }

  /** The first `n` operations are applied, and their record leads back. */
  ghost predicate Progress(start: Tree, t: Tree, ops: seq<Op>, n: nat, applied: seq<Entry>) {
    && n <= |ops| && Records(applied, ops[..n]) && Undo(FilesOf(t), Reversed(applied)) == FilesOf(start)
    && ApplyAll(start, ops) == ApplyAll(t, ops[n..]) && ApplyAll(start, ops[..n]) == Some(t)
    && (AllApart(ops) ==> Unobstructed(t, applied)) && AllHaveParents(t, applied)
  }

  lemma ProgressOn(start: Tree, t: Tree, u: Tree, ops: seq<Op>, n: nat, earlier: seq<Entry>, applied: seq<Entry>)
    requires n < |ops| && Progress(start, t, ops, n, earlier) && CanApply(t, ops[n]) && u == Applied(t, ops[n])
    requires Touches(t, u, ops[n].path) && Unclashed(t, ops[n].path) && HasParent(u, ops[n].path)
    requires applied == earlier + [(ops[n].path, Lookup(FilesOf(t), ops[n].path))]
    ensures Progress(start, u, ops, n + 1, applied)
  {
    ApplyAllStep(t, ops, n);
    ApplyAllSnoc(start, ops, n, t);
    StepRecorded(t, u, ops, n, earlier, applied);
    ParentsAfter(t, u, earlier, ops[n].path, Lookup(FilesOf(t), ops[n].path));
  }

  lemma ProgressStops(start: Tree, t: Tree, u: Tree, ops: seq<Op>, n: nat, earlier: seq<Entry>, prior: Option<Entry>,
                      applied: seq<Entry>)
    requires n < |ops| && Progress(start, t, ops, n, earlier) && Touches(t, u, ops[n].path)
    requires prior.None? ==> u == t && applied == earlier
    requires prior.Some? ==>
      && Unclashed(t, ops[n].path) && prior.value == (ops[n].path, Lookup(FilesOf(t), ops[n].path))
      && applied == earlier + [prior.value] && (prior.value.1.Some? ==> HasParent(u, ops[n].path))
    ensures Undo(FilesOf(u), Reversed(applied)) == FilesOf(start)
    ensures CanApply(t, ops[n]) || ApplyAll(start, ops).None?
    ensures (AllApart(ops) ==> Unobstructed(u, applied)) && SomeHaveParents(u, applied)
    ensures AllHaveParents(u, applied) <==> prior.None? || HasParent(u, ops[n].path)
  {
    ApplyAllStep(t, ops, n);
    if prior.Some? {
      StepRecorded(t, u, ops, n, earlier, applied);
      ParentsAfter(t, u, earlier, ops[n].path, prior.value.1);
    }
  }

  lemma ApplyAllStep(t: Tree, ops: seq<Op>, n: nat)
    requires n < |ops|
    ensures ApplyAll(t, ops[n..]) == if CanApply(t, ops[n]) then ApplyAll(Applied(t, ops[n]), ops[n + 1..]) else None
  {
    assert ops[n..][0] == ops[n] && ops[n..][1..] == ops[n + 1..];
  }

  /** One recorded step: the record still leads back, and stays unobstructed on paths apart. */
  lemma StepRecorded(t: Tree, u: Tree, ops: seq<Op>, n: nat, earlier: seq<Entry>, applied: seq<Entry>)
    requires n < |ops| && Records(earlier, ops[..n]) && Touches(t, u, ops[n].path) && Unclashed(t, ops[n].path)
    requires applied == earlier + [(ops[n].path, Lookup(FilesOf(t), ops[n].path))]
    ensures Records(applied, ops[..n + 1])
    ensures Undo(FilesOf(u), Reversed(applied)) == Undo(FilesOf(t), Reversed(earlier))
    ensures AllApart(ops) && Unobstructed(t, earlier) ==> Unobstructed(u, applied)
  {
    TouchesOnlyAt(t, u, ops[n].path);
    UndoStep(FilesOf(t), FilesOf(u), earlier, ops[n].path);
    if AllApart(ops) && Unobstructed(t, earlier) {
      RecordKeepsUnclashed(t, u, ops, n, earlier, applied);
    }
  }

  lemma RecordKeepsUnclashed(t: Tree, u: Tree, ops: seq<Op>, n: nat, earlier: seq<Entry>, applied: seq<Entry>)
    requires AllApart(ops) && n < |ops| && Records(earlier, ops[..n]) && Records(applied, ops[..n + 1])
    requires earlier == applied[..n] && AllUnclashed(t, earlier) && Unclashed(t, ops[n].path)
      && Touches(t, u, ops[n].path)
    ensures Unobstructed(u, applied)
  {
    forall e | e in applied ensures Unclashed(u, e.0) {
      var i :| 0 <= i <= n && applied[i] == e;
      if i < n {
        assert earlier[i] == e && Apart(ops[i].path, ops[n].path);
      }
      TouchesKeepsUnclashed(t, u, ops[n].path, e.0);
    }
    forall a, b | a in applied && b in applied ensures a.0 == b.0 || Apart(a.0, b.0) {
      var i :| 0 <= i <= n && applied[i] == a;
      var j :| 0 <= j <= n && applied[j] == b;
      assert i < j ==> Apart(ops[i].path, ops[j].path);
      assert j < i ==> Apart(ops[j].path, ops[i].path);
    }
  }

  /** Every failure is for a recorded path. */
  ghost predicate AllNamed(failures: seq<(Below, StageError)>, entries: seq<Entry>) {
    forall f :: f in failures ==> NamedAt(entries, f.0)
  }

  predicate NoClash(failures: seq<(Below, StageError)>) {
    forall f :: f in failures ==> f.1 != Clash
  }

  /** Entries for one path, or for paths apart. */
  ghost predicate EntriesApart(entries: seq<Entry>) {
    forall a, b :: a in entries && b in entries ==> a.0 == b.0 || Apart(a.0, b.0)
  }

  /** No recorded path meets a file or directory in its way. */
  ghost predicate Unobstructed(t: Tree, entries: seq<Entry>) {
    AllUnclashed(t, entries) && EntriesApart(entries)
  }

  lemma UndoFirst(f: Files, entries: seq<Entry>, n: nat)
    requires n < |entries|
    ensures Undo(f, entries[n..]) == Undo(SetFile(f, entries[n].0, entries[n].1), entries[n + 1..])
  {
    assert entries[n..][0] == entries[n] && entries[n..][1..] == entries[n + 1..];
  }

  lemma EntryKeepsUnobstructed(t: Tree, u: Tree, entries: seq<Entry>, n: nat)
    requires n < |entries| && Touches(t, u, entries[n].0)
    ensures NamedAt(entries, entries[n].0)
    ensures Unobstructed(t, entries) ==> Unobstructed(u, entries) && Unclashed(t, entries[n].0)
  {
    assert entries[n] in entries;
    if Unobstructed(t, entries) {
      forall e | e in entries ensures Unclashed(u, e.0) {
        TouchesKeepsUnclashed(t, u, entries[n].0, e.0);
      }
    }
  }

  lemma PlacedKeeps(t: Tree, u: Tree, p: Below, bytes: Bytes)
    requires WellFormed(u) && u == MakeFolders(t, p) && !FileAbove(t, p) && !IsFolder(u, p)
    ensures WellFormed(u[p := File(bytes)]) && Touches(t, u[p := File(bytes)], p)
  {
    var v := u[p := File(bytes)];
    forall x, y | y in v && Above(x, y) ensures IsFolder(v, x) {
      if y == p && x != [] {
        assert At(u, x) == Some(Folder);
      }
    }
    forall q | Above(q, p) && q != [] ensures !IsFile(t, q) {
      assert q == p[..|q|];
    }
  }

  lemma RemovedKeeps(t: Tree, p: Below)
    requires WellFormed(t) && IsFile(t, p)
    ensures WellFormed(t - {p}) && Touches(t, t - {p}, p)
  {
  }

  lemma WrittenFiles(t: Tree, p: Below, bytes: Bytes)
    requires Unclashed(t, p)
    ensures FilesOf(Applied(t, Op(p, Mutation.Write(bytes)))) == SetFile(FilesOf(t), p, Some(bytes))
  {
    var u := Applied(t, Op(p, Mutation.Write(bytes)));
    forall q ensures Lookup(FilesOf(u), q) == Lookup(SetFile(FilesOf(t), p, Some(bytes)), q) {
      AppliedAt(t, Op(p, Mutation.Write(bytes)), q);
    }
    SameFiles(FilesOf(u), SetFile(FilesOf(t), p, Some(bytes)));
  }

  lemma RemovedFiles(t: Tree, p: Below)
    ensures FilesOf(t - {p}) == SetFile(FilesOf(t), p, None)
  {
  }

  /** The directories of `p` shorter than `i` are made, none of them over a file. */
  ghost predicate MadeUpTo(t: Tree, u: Tree, p: Below, i: nat) {
    && (forall q :: At(u, q) == if q != [] && Above(q, p) && |q| < i then Some(Folder) else At(t, q))
    && (forall q :: Above(q, p) && |q| < i ==> !IsFile(t, q))
  }

  lemma NothingMade(t: Tree, u: Tree, p: Below, i: nat)
    requires WellFormed(t) && MadeUpTo(t, u, p, i) && 0 < i < |p| && IsFile(u, p[..i])
    ensures u == t && FileAbove(t, p)
  {
    assert IsFile(t, p[..i]);
    forall q: Below ensures At(u, q) == At(t, q) {
      if Above(q, p) && |q| < i {
        assert Above(q, p[..i]);
      }
    }
    SameEntries(u, t);
  }

  lemma AlreadyMade(t: Tree, u: Tree, p: Below, i: nat)
    requires MadeUpTo(t, u, p, i) && 0 < i < |p| && IsFolder(u, p[..i])
    ensures MadeUpTo(t, u, p, i + 1)
  {
    assert forall q :: Above(q, p) && |q| == i ==> q == p[..i];
  }

  lemma MakeOneFolder(t: Tree, u: Tree, p: Below, i: nat)
    requires WellFormed(u) && MadeUpTo(t, u, p, i) && 0 < i < |p| && At(u, p[..i]).None?
    ensures WellFormed(u[p[..i] := Folder]) && MadeUpTo(t, u[p[..i] := Folder], p, i + 1)
  {
    assert forall q :: Above(q, p) && |q| == i ==> q == p[..i];
    assert forall q :: Above(q, p[..i]) ==> Above(q, p) && |q| < i;
  }

  lemma MadeTouches(t: Tree, u: Tree, p: Below, i: nat)
    requires MadeUpTo(t, u, p, i)
    ensures Touches(t, u, p) && At(u, p) == At(t, p)
  {
  }

  lemma FoldersMade(t: Tree, u: Tree, p: Below)
    requires MadeUpTo(t, u, p, |p|)
    ensures u == MakeFolders(t, p) && !FileAbove(t, p)
  {
    SameEntries(u, MakeFolders(t, p));
    forall i | 0 < i < |p| ensures !IsFile(t, p[..i]) {
      assert Above(p[..i], p);
    }
  }

  // ---------- the failing inputs ----------

  /** One operation below a missing directory of an empty tree, with working repairs: no file
      changes, and yet rollback leaves an entry that a second try cannot restore either. */
  method StrandsNothingLost(op: Op, faults: StepFaults) returns (undo: seq<Entry>, files: Files, again: bool)
    requires op.path == ["a", "b"]
    requires faults == (if op.mutation.Delete? then WORKS else StepFaults(false, Some(Fault(1, None))))
    ensures undo != [] && files == map[] && !again
  {
    var root := new StagedRoot(map[]);
    var r, left, failures, at, met := root.ApplyBatch([op], _ => faults, _ => None);
    assert [op][..at] == [] && met == map[];
    undo, files := left, FilesOf(root.tree);
    assert undo[0] in undo;
    var refused := root.RestoreAll(undo, true, _ => None, map[]);
    again := refused.None?;
  }
}
