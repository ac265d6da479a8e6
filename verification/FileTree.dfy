/** A staged working tree of files and directories, and what applying a batch of patches
  does to it.

  A path is its segments.  The root is a directory that is always there; a tree holds the
  entries below it, and every entry's parent is a directory of the tree or the root.
*/
module FileTree {
  import opened Framing
  import opened Paths
  import opened Proposal

  type Path = seq<string>

  /** A path below the root. */
  type Below = p: Path | p != [] witness [""]

  datatype Node = File(bytes: Bytes) | Folder

  type Tree = t: map<Path, Node> | [] !in t

  function At(t: Tree, p: Path): Option<Node> {
    if p == [] then Some(Folder) else if p in t then Some(t[p]) else None
  }

  predicate IsFile(t: Tree, p: Path) {
    At(t, p).Some? && At(t, p).value.File?
  }

  predicate IsFolder(t: Tree, p: Path) {
    At(t, p) == Some(Folder)
  }

  /** `p` is a directory above `q`. */
  predicate Above(p: Path, q: Path) {
    p < q
  }

  ghost predicate WellFormed(t: Tree) {
    forall p, q :: q in t && Above(p, q) ==> IsFolder(t, p)
  }

  /** A tree as a file system holds it. */
  type RealTree = t: Tree | WellFormed(t) witness map[]

  datatype Op = Op(path: Below, mutation: Mutation)

  // ---------- one operation without failing system calls ----------

  /** No entry above `p` is a file, and `p` is not a directory. */
  ghost predicate Unclashed(t: Tree, p: Path) {
    (forall q :: Above(q, p) ==> !IsFile(t, q)) && !IsFolder(t, p)
  }

  ghost predicate CanApply(t: Tree, op: Op) {
    match op.mutation
    case Write(_) => Unclashed(t, op.path)
    case Delete => IsFile(t, op.path)
  }

  /** Make the directories above `p`. */
  function MakeFolders(t: Tree, p: Below): (made: Tree)
    ensures forall q :: At(made, q) == if q != [] && Above(q, p) then Some(Folder) else At(t, q)
  {
    if |p| == 1 then t
    else
      var parent := p[..|p| - 1];
      assert forall q :: Above(q, p) <==> q == parent || Above(q, parent);
      MakeFolders(t, parent)[parent := Folder]
  }

  function Applied(t: Tree, op: Op): Tree {
    match op.mutation
    case Write(content) => MakeFolders(t, op.path)[op.path := File(content)]
    case Delete => t - {op.path}
  }

  lemma AppliedAt(t: Tree, op: Op, q: Path)
    ensures At(Applied(t, op), q) ==
      if q == op.path then (match op.mutation case Write(content) => Some(File(content)) case Delete => None)
      else if op.mutation.Write? && q != [] && Above(q, op.path) then Some(Folder)
      else At(t, q)
  {
  }

  /** Apply operations in order; `None` as soon as one cannot be applied. */
  ghost function ApplyAll(t: Tree, ops: seq<Op>): Option<Tree>
    decreases ops
  {
    if ops == [] then Some(t)
    else if !CanApply(t, ops[0]) then None
    else ApplyAll(Applied(t, ops[0]), ops[1..])
  }

  // ---------- order does not matter on antichains ----------

  predicate Apart(p: Path, q: Path) {
    !(p <= q) && !(q <= p)
  }

  ghost predicate AllApart(ops: seq<Op>) {
    forall i, j :: 0 <= i < j < |ops| ==> Apart(ops[i].path, ops[j].path)
  }

  lemma ApplyKeepsOthers(t: Tree, a: Op, b: Op)
    requires CanApply(t, a) && Apart(a.path, b.path)
    ensures CanApply(Applied(t, a), b) <==> CanApply(t, b)
  {
    var u := Applied(t, a);
    AppliedAt(t, a, b.path);
    forall q | Above(q, b.path) ensures IsFile(u, q) <==> IsFile(t, q) {
      AppliedAt(t, a, q);
      if Above(q, a.path) && a.mutation.Write? {
        assert !IsFile(t, q);
      }
    }
  }

  function After(m: Mutation): Option<Node> {
    match m case Write(content) => Some(File(content)) case Delete => None
  }

  /** What the whole batch does to one path, with no order among the operations. */
  ghost predicate Effect(t: Tree, ops: seq<Op>, q: Path, after: Option<Node>) {
    if Targets(ops, q) then exists op :: op in ops && op.path == q && after == After(op.mutation)
    else if Encloses(ops, q) then after == Some(Folder)
    else after == At(t, q)
  }

  ghost predicate Targets(ops: seq<Op>, q: Path) {
    exists op :: op in ops && op.path == q
  }

  /** A written path lies below `q`. */
  ghost predicate Encloses(ops: seq<Op>, q: Path) {
    q != [] && exists op :: op in ops && op.mutation.Write? && Above(q, op.path)
  }

  /** On an antichain the operations act at once: the batch applies exactly when every
      operation can be applied to the original tree, and each path ends up with its effect. */
  lemma {:induction false} ActsAtOnce(t: Tree, ops: seq<Op>)
    requires AllApart(ops)
    ensures ApplyAll(t, ops).Some? <==> forall op :: op in ops ==> CanApply(t, op)
    ensures ApplyAll(t, ops).Some? ==> forall q :: Effect(t, ops, q, At(ApplyAll(t, ops).value, q))
    decreases ops
  {
    if ops != [] {
      var first, rest := ops[0], ops[1..];
      assert first in ops;
      if CanApply(t, first) {
        var u := Applied(t, first);
        TailApart(ops);
        ActsAtOnce(u, rest);
        forall op | op in rest ensures CanApply(u, op) <==> CanApply(t, op) {
          ApplyKeepsOthers(t, first, op);
        }
        if ApplyAll(u, rest).Some? {
          forall q ensures Effect(t, ops, q, At(ApplyAll(u, rest).value, q)) {
            EffectStep(t, ops, q, At(ApplyAll(u, rest).value, q));
          }
        }
      }
    }
  }

  lemma TailApart(ops: seq<Op>)
    requires ops != [] && AllApart(ops)
    ensures AllApart(ops[1..])
    ensures forall op :: op in ops[1..] ==> Apart(ops[0].path, op.path)
  {
    var rest := ops[1..];
    forall i, j | 0 <= i < j < |rest| ensures Apart(rest[i].path, rest[j].path) {
      assert Apart(ops[i + 1].path, ops[j + 1].path);
    }
    forall op | op in rest ensures Apart(ops[0].path, op.path) {
      var i :| 0 <= i < |rest| && rest[i] == op;
      assert ops[i + 1] == op;
    }
  }

  lemma EffectStep(t: Tree, ops: seq<Op>, q: Path, after: Option<Node>)
    requires ops != [] && AllApart(ops) && CanApply(t, ops[0])
    requires Effect(Applied(t, ops[0]), ops[1..], q, after)
    ensures Effect(t, ops, q, after)
  {
    var first, rest := ops[0], ops[1..];
    TailApart(ops);
    AppliedAt(t, first, q);
    assert forall op :: op in ops <==> op == first || op in rest;
    if Targets(rest, q) {
      var op :| op in rest && op.path == q && after == After(op.mutation);
      assert op in ops;
    } else if q == first.path {
      assert first in ops;
      assert !Encloses(rest, q);
    }
  }

  lemma SameTarget(ops: seq<Op>, a: Op, b: Op)
    requires AllApart(ops) && a in ops && b in ops && a.path == b.path
    ensures a == b
  {
    var i :| 0 <= i < |ops| && ops[i] == a;
    var j :| 0 <= j < |ops| && ops[j] == b;
    assert !(i < j) && !(j < i);
  }

  lemma EffectIsUnique(t: Tree, a: seq<Op>, b: seq<Op>, q: Path, x: Option<Node>, y: Option<Node>)
    requires AllApart(a) && (forall op :: op in a <==> op in b)
    requires Effect(t, a, q, x) && Effect(t, b, q, y)
    ensures x == y
  {
    if Targets(a, q) {
      var i :| i in a && i.path == q && x == After(i.mutation);
      assert Targets(b, q);
      var j :| j in b && j.path == q && y == After(j.mutation);
      SameTarget(a, i, j);
    } else {
      assert !Targets(b, q);
      assert Encloses(a, q) <==> Encloses(b, q);
    }
  }

  lemma {:induction false} ApartOccursOnce(ops: seq<Op>, op: Op)
    requires AllApart(ops)
    ensures multiset(ops)[op] <= 1
  {
    if ops != [] {
      TailApart(ops);
      ApartOccursOnce(ops[1..], op);
      assert ops == [ops[0]] + ops[1..];
      assert op in ops[1..] <==> op in multiset(ops[1..]);
    }
  }

  lemma TwiceIsCounted(ops: seq<Op>, i: nat, j: nat)
    requires i < j < |ops| && ops[i] == ops[j]
    ensures multiset(ops)[ops[i]] >= 2
  {
    var left, right := ops[..i + 1], ops[i + 1..];
    assert ops == left + right && left[i] == ops[i] && right[j - i - 1] == ops[j];
    assert ops[i] in multiset(left) && ops[i] in multiset(right);
  }

  /** Reordering keeps paths apart. */
  lemma ReorderedApart(a: seq<Op>, b: seq<Op>)
    requires AllApart(a) && multiset(a) == multiset(b)
    ensures AllApart(b)
  {
    forall i, j | 0 <= i < j < |b| ensures Apart(b[i].path, b[j].path) {
      assert b[i] in multiset(b) && b[j] in multiset(b);
      var m :| 0 <= m < |a| && a[m] == b[i];
      var n :| 0 <= n < |a| && a[n] == b[j];
      ApartOccursOnce(a, b[i]);
      if b[i] == b[j] {
        TwiceIsCounted(b, i, j);
      }
      assert m < n ==> Apart(a[m].path, a[n].path);
      assert n < m ==> Apart(a[n].path, a[m].path);
    }
  }

  /** Proposal order does not matter: all orders of an antichain succeed or fail alike, and
      give the same tree when they succeed. */
  lemma OrderDoesNotMatter(t: Tree, a: seq<Op>, b: seq<Op>)
    requires AllApart(a) && multiset(a) == multiset(b)
    ensures ApplyAll(t, a) == ApplyAll(t, b)
  {
    forall op ensures op in a <==> op in b {
      assert op in a <==> op in multiset(a);
      assert op in b <==> op in multiset(b);
    }
    ReorderedApart(a, b);
    ActsAtOnce(t, a);
    ActsAtOnce(t, b);
    if ApplyAll(t, a).Some? {
      SameEffects(t, a, b, ApplyAll(t, a).value, ApplyAll(t, b).value);
    }
  }

  lemma SameEffects(t: Tree, a: seq<Op>, b: seq<Op>, x: Tree, y: Tree)
    requires AllApart(a) && (forall op :: op in a <==> op in b)
    requires forall q :: Effect(t, a, q, At(x, q))
    requires forall q :: Effect(t, b, q, At(y, q))
    ensures x == y
  {
    forall q: Below ensures At(x, q) == At(y, q) {
      assert Effect(t, a, q, At(x, q)) && Effect(t, b, q, At(y, q));
      EffectIsUnique(t, a, b, q, At(x, q), At(y, q));
    }
    SameEntries(x, y);
  }

  lemma SameEntries(x: Tree, y: Tree)
    requires forall q: Below :: At(x, q) == At(y, q)
    ensures x == y
  {
    forall q ensures q in x <==> q in y {
      if q != [] {
        var below: Below := q;
        assert At(x, below) == At(y, below);
      }
    }
    forall q | q in x ensures x[q] == y[q] {
      var below: Below := q;
      assert At(x, below) == At(y, below);
    }
  }

  // ---------- proposals and forecasts ----------

  function OpsOf(operations: seq<Operation>): (ops: seq<Op>)
    ensures |ops| == |operations|
  {
    seq(|operations|, i requires 0 <= i < |operations| => Op(Segments(operations[i].path), operations[i].mutation))
  }

  lemma AntichainIsApart(operations: seq<Operation>)
    requires Antichain(PathsOf(operations))
    ensures AllApart(OpsOf(operations))
  {
    var ops, paths := OpsOf(operations), PathsOf(operations);
    forall i, j | 0 <= i < j < |ops| ensures Apart(ops[i].path, ops[j].path) {
      assert !Overlap(paths[i], paths[j]);
      OverlapIsPrefix(paths[i], paths[j]);
    }
  }

  /** For every validated proposal and every tree, all permutations of its operations succeed
      or fail alike and give the same tree. */
  lemma ProposalOrderDoesNotMatter(fold: Fold, p: PatchProposal, t: Tree, reordered: seq<Op>)
    requires fold('/') == "/" && Admissible(fold, p) && multiset(OpsOf(p.operations)) == multiset(reordered)
    ensures ApplyAll(t, OpsOf(p.operations)) == ApplyAll(t, reordered)
  {
    AdmissiblePathsAreAntichain(fold, p);
    AntichainIsApart(p.operations);
    OrderDoesNotMatter(t, OpsOf(p.operations), reordered);
  }

  /** Write sets whose forecast is empty commute. */
  lemma DisjointWritesCommute(t: Tree, left: seq<Operation>, right: seq<Operation>)
    requires Antichain(Concat([PathsOf(left), PathsOf(right)]))
    ensures ApplyAll(t, OpsOf(left) + OpsOf(right)) == ApplyAll(t, OpsOf(right) + OpsOf(left))
  {
    var both := left + right;
    ConcatTwo(PathsOf(left), PathsOf(right));
    assert PathsOf(both) == PathsOf(left) + PathsOf(right);
    assert OpsOf(both) == OpsOf(left) + OpsOf(right);
    AntichainIsApart(both);
    OrderDoesNotMatter(t, OpsOf(left) + OpsOf(right), OpsOf(right) + OpsOf(left));
  }

  lemma ConcatTwo(a: seq<string>, b: seq<string>)
    ensures Concat([a, b]) == a + b
  {
    assert [a, b][..1] == [a] && [a][..0] == [];
    assert Concat([a]) == [] + a;
  }
}
