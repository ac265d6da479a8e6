/** Journal operations, checksum-chained batches and checkpoints.

  A batch checksum covers the previous checksum and every field of every
  operation.  The theorems say what that buys: the head checksum alone
  determines every batch of a well-formed chain, and a checkpoint digest
  determines the whole operation history, unless two actual preimages share
  one digest.
*/
module Journal {
  import opened Framing

  datatype OpKind = Write | Delete

  datatype JournalOp = JournalOp(
    sequence: Word64, path: Buffer, kind: OpKind, before: Option<Digest>, after: Option<Digest>)

  const BATCH_SCHEMA := 2
  const BATCH_DOMAIN: Bytes := Ascii("bullet-git-journal-batch-v2")
  const TREE_DOMAIN: Bytes := Ascii("bullet-git.journal-tree.v2")
  const CHECKPOINT_DOMAIN: Bytes := Ascii("bullet-git.checkpoint.v3")
  const NO_GIT_TREE: Bytes := Ascii("none")

  // ---------- framed fields of an operation ----------

  function KindTag(kind: OpKind): Bytes {
    match kind
    case Write => Ascii("w")
    case Delete => Ascii("d")
  }

  function OptionalDigestFields(digest: Option<Digest>): seq<Bytes> {
    match digest
    case Some(d) => [Ascii("present"), d]
    case None => [Ascii("absent")]
  }

  function OpFields(op: JournalOp): seq<Bytes> {
    [U64(op.sequence), KindTag(op.kind), op.path]
    + OptionalDigestFields(op.before) + OptionalDigestFields(op.after)
  }

  function OpsFields(ops: seq<JournalOp>): seq<Bytes> {
    if ops == [] then [] else OpFields(ops[0]) + OpsFields(ops[1..])
  }

  lemma OptionalDigestFieldsCancel(a: Option<Digest>, x: seq<Bytes>, b: Option<Digest>, y: seq<Bytes>)
    requires OptionalDigestFields(a) + x == OptionalDigestFields(b) + y
    ensures a == b && x == y
  {
    var left, right := OptionalDigestFields(a) + x, OptionalDigestFields(b) + y;
    assert |left[0]| == |right[0]|;
    assert a.Some? == b.Some?;
    if a.Some? {
      assert left[1] == a.value && right[1] == b.value;
    }
    assert left[|OptionalDigestFields(a)|..] == x && right[|OptionalDigestFields(b)|..] == y;
  }

  lemma OpFieldsCancel(a: JournalOp, x: seq<Bytes>, b: JournalOp, y: seq<Bytes>)
    requires OpFields(a) + x == OpFields(b) + y
    ensures a == b && x == y
  {
    var left, right := OpFields(a) + x, OpFields(b) + y;
    var aTail := OptionalDigestFields(a.before) + (OptionalDigestFields(a.after) + x);
    var bTail := OptionalDigestFields(b.before) + (OptionalDigestFields(b.after) + y);
    assert left == [U64(a.sequence), KindTag(a.kind), a.path] + aTail;
    assert right == [U64(b.sequence), KindTag(b.kind), b.path] + bTail;
    assert left[0] == U64(a.sequence) && right[0] == U64(b.sequence);
    U64Injective(a.sequence, b.sequence);
    assert left[1] == KindTag(a.kind) && right[1] == KindTag(b.kind) && left[1][0] == right[1][0];
    assert left[2] == a.path && right[2] == b.path;
    assert left[3..] == aTail && right[3..] == bTail;
    OptionalDigestFieldsCancel(
      a.before, OptionalDigestFields(a.after) + x, b.before, OptionalDigestFields(b.after) + y);
    OptionalDigestFieldsCancel(a.after, x, b.after, y);
  }

  lemma {:induction false} OpsFieldsInjective(a: seq<JournalOp>, b: seq<JournalOp>)
    requires OpsFields(a) == OpsFields(b)
    ensures a == b
  {
    if a != [] && b != [] {
      OpFieldsCancel(a[0], OpsFields(a[1..]), b[0], OpsFields(b[1..]));
      OpsFieldsInjective(a[1..], b[1..]);
      assert a == [a[0]] + a[1..] && b == [b[0]] + b[1..];
    }
  }

  lemma {:induction false} OpsFieldsAddressable(ops: seq<JournalOp>)
    ensures Addressable(OpsFields(ops))
  {
    if ops != [] {
      OpsFieldsAddressable(ops[1..]);
    }
  }

  // ---------- batches ----------

  datatype StoredBatch = StoredBatch(
    schema: nat, start: Word64, end: Word64, previous: Option<Digest>, ops: seq<JournalOp>, checksum: Digest)

  function PreviousFields(previous: Option<Digest>): seq<Bytes> {
    match previous
    case Some(digest) => [Ascii("previous"), digest]
    case None => [Ascii("genesis")]
  }

  function BatchFields(previous: Option<Digest>, ops: seq<JournalOp>): seq<Bytes> {
    [BATCH_DOMAIN] + PreviousFields(previous) + [U64(|ops|)] + OpsFields(ops)
  }

  function BatchPreimage(previous: Option<Digest>, ops: seq<JournalOp>): Bytes {
    FrameAll(BatchFields(previous, ops))
  }

  /** Chains are defined over any checksum of a previous checksum and a batch. */
  type Checksum = (Option<Digest>, seq<JournalOp>) -> Digest

  /** The checksum in use: the digest of the framed preimage. */
  function BatchChecksum(hash: Bytes -> Digest): Checksum {
    (previous: Option<Digest>, ops: seq<JournalOp>) => hash(BatchPreimage(previous, ops))
  }

  /** The checksum preimage determines the previous checksum and every operation. */
  lemma BatchPreimageInjective(
    p: Option<Digest>, a: seq<JournalOp>, q: Option<Digest>, b: seq<JournalOp>)
    requires BatchPreimage(p, a) == BatchPreimage(q, b)
    ensures p == q && a == b
  {
    var left, right := BatchFields(p, a), BatchFields(q, b);
    OpsFieldsAddressable(a);
    OpsFieldsAddressable(b);
    FramesAreUniquelyDecodable(left, right);
    assert |left[1]| == |right[1]|;
    assert p.Some? == q.Some?;
    if p.Some? {
      assert left[2] == p.value && right[2] == q.value;
    }
    var skip := 2 + |PreviousFields(p)|;
    assert left[skip..] == OpsFields(a) && right[skip..] == OpsFields(b);
    OpsFieldsInjective(a, b);
  }

  function NewBatch(sum: Checksum, start: Word64, end: Word64, previous: Option<Digest>,
                    ops: seq<JournalOp>): StoredBatch {
    StoredBatch(BATCH_SCHEMA, start, end, previous, ops, sum(previous, ops))
  }

  predicate ContentShapeValid(op: JournalOp) {
    match op.kind
    case Write => op.after.Some?
    case Delete => op.before.Some? && op.after.None?
  }

  predicate PathAdmitted(path: Bytes) {
    path != [] && 0 !in path
  }

  predicate ValidOp(op: JournalOp, wanted: nat) {
    op.sequence == wanted && PathAdmitted(op.path) && ContentShapeValid(op)
  }

  /** What a stored batch must satisfy at its place in the chain. */
  predicate ValidBatch(sum: Checksum, batch: StoredBatch, fileStart: nat, fileEnd: nat,
                       expected: nat, previous: Option<Digest>)
  {
    && batch.schema == BATCH_SCHEMA
    && batch.start == fileStart && batch.end == fileEnd && batch.start == expected
    && batch.ops != [] && batch.previous == previous
    && (forall i :: 0 <= i < |batch.ops| ==> ValidOp(batch.ops[i], batch.start + i))
    && batch.ops[|batch.ops| - 1].sequence == batch.end
    && batch.checksum == sum(previous, batch.ops)
  }

  // ---------- chains ----------

  function Head(chain: seq<StoredBatch>): Option<Digest> {
    if chain == [] then None else Some(chain[|chain| - 1].checksum)
  }

  function NextSequence(chain: seq<StoredBatch>): nat {
    if chain == [] then 1 else chain[|chain| - 1].end + 1
  }

  function ChainOps(chain: seq<StoredBatch>): seq<JournalOp> {
    if chain == [] then []
    else ChainOps(chain[..|chain| - 1]) + chain[|chain| - 1].ops
  }

  /** Each batch follows its predecessor. */
  predicate Linked(sum: Checksum, chain: seq<StoredBatch>) {
    chain == [] ||
    var front, last := chain[..|chain| - 1], chain[|chain| - 1];
    Linked(sum, front) && ValidBatch(sum, last, last.start, last.end, NextSequence(front), Head(front))
  }

  /** A reloadable chain.  Loading increments every end sequence, so a chain
      that ends at the largest 64-bit number is linked but not reloadable. */
  predicate Chained(sum: Checksum, chain: seq<StoredBatch>) {
    Linked(sum, chain) && NextSequence(chain) < TWO_TO_THE_64
  }

  /** The batch starts where expected, names the checksum before it, and numbers its operations
      without a gap; each has a path without NUL, and contents that suit its kind. */
  predicate IsProper(sum: Checksum, b: StoredBatch, start: nat, previous: Option<Digest>) {
    && b.schema == BATCH_SCHEMA && b.ops != [] && b.start == start && b.end == b.start + |b.ops| - 1
    && b.previous == previous && b.checksum == sum(previous, b.ops)
    && forall k :: 0 <= k < |b.ops| ==>
         && b.ops[k].sequence == b.start + k && |b.ops[k].path| > 0 && 0 !in b.ops[k].path
         && (b.ops[k].kind == Write ==> b.ops[k].after.Some?)
         && (b.ops[k].kind == Delete ==> b.ops[k].before.Some? && b.ops[k].after.None?)
  }

  /** Batch `i` follows the batches before it: it starts after all their operations. */
  predicate FollowsOn(sum: Checksum, chain: seq<StoredBatch>, i: nat)
    requires i < |chain|
  {
    IsProper(sum, chain[i], |ChainOps(chain[..i])| + 1, if i == 0 then None else Some(chain[i - 1].checksum))
  }

  /** A chain is linked exactly when every batch follows on. */
  lemma {:induction false} LinkedExactly(sum: Checksum, chain: seq<StoredBatch>)
    ensures Linked(sum, chain) <==> forall i :: 0 <= i < |chain| ==> FollowsOn(sum, chain, i)
  {
    if chain != [] {
      var n := |chain| - 1;
      var front := chain[..n];
      LinkedExactly(sum, front);
      forall i | 0 <= i < n ensures FollowsOn(sum, chain, i) <==> FollowsOn(sum, front, i) {
        assert front[..i] == chain[..i] && front[i] == chain[i];
        assert i > 0 ==> front[i - 1] == chain[i - 1];
      }
      if Linked(sum, front) {
        LastFollowsOn(sum, chain);
      }
    }
  }

  lemma LastFollowsOn(sum: Checksum, chain: seq<StoredBatch>)
    requires chain != [] && Linked(sum, chain[..|chain| - 1])
    ensures Linked(sum, chain) <==> FollowsOn(sum, chain, |chain| - 1)
  {
    var front, last := chain[..|chain| - 1], chain[|chain| - 1];
    ChainOpsLength(sum, front);
    assert |chain| > 1 ==> front[|front| - 1] == chain[|chain| - 2];
    ValidBatchExactly(sum, last, NextSequence(front), Head(front));
  }

  lemma ValidBatchExactly(sum: Checksum, b: StoredBatch, expected: nat, previous: Option<Digest>)
    ensures ValidBatch(sum, b, b.start, b.end, expected, previous) <==> IsProper(sum, b, expected, previous)
  {
  }

  lemma {:induction false} ChainOpsLength(sum: Checksum, chain: seq<StoredBatch>)
    requires Linked(sum, chain)
    ensures |ChainOps(chain)| + 1 == NextSequence(chain)
    ensures forall i :: 0 <= i < |ChainOps(chain)| ==> ChainOps(chain)[i].sequence == i + 1
  {
    if chain != [] {
      var front, last := chain[..|chain| - 1], chain[|chain| - 1];
      ChainOpsLength(sum, front);
      assert ValidOp(last.ops[|last.ops| - 1], last.start + (|last.ops| - 1));
      forall i | 0 <= i < |ChainOps(chain)| ensures ChainOps(chain)[i].sequence == i + 1 {
        if i >= |ChainOps(front)| {
          var k := i - |ChainOps(front)|;
          assert ValidOp(last.ops[k], last.start + k);
        }
      }
    }
  }

  lemma LinkedExtends(sum: Checksum, chain: seq<StoredBatch>, batch: StoredBatch)
    requires Linked(sum, chain)
    requires ValidBatch(sum, batch, batch.start, batch.end, NextSequence(chain), Head(chain))
    ensures Linked(sum, chain + [batch])
    ensures ChainOps(chain + [batch]) == ChainOps(chain) + batch.ops
  {
    assert (chain + [batch])[..|chain|] == chain;
  }

  predicate BatchClash(hash: Bytes -> Digest, x: StoredBatch, y: StoredBatch) {
    Collide(hash, BatchPreimage(x.previous, x.ops), BatchPreimage(y.previous, y.ops))
  }

  /** Two batches, one of each chain, whose checksum preimages collide. */
  ghost predicate BatchesCollide(hash: Bytes -> Digest, a: seq<StoredBatch>, b: seq<StoredBatch>) {
    exists i, j :: 0 <= i < |a| && 0 <= j < |b| && BatchClash(hash, a[i], b[j])
  }

  lemma LastBatchValid(sum: Checksum, chain: seq<StoredBatch>)
    requires chain != [] && Linked(sum, chain)
    ensures var last := chain[|chain| - 1];
      && last.previous == Head(chain[..|chain| - 1])
      && ValidBatch(sum, last, last.start, last.end, last.start, last.previous)
  {
  }

  lemma BatchBinds(hash: Bytes -> Digest, x: StoredBatch, y: StoredBatch)
    requires ValidBatch(BatchChecksum(hash), x, x.start, x.end, x.start, x.previous)
    requires ValidBatch(BatchChecksum(hash), y, y.start, y.end, y.start, y.previous)
    requires x.checksum == y.checksum
    ensures x == y || BatchClash(hash, x, y)
  {
    if BatchPreimage(x.previous, x.ops) == BatchPreimage(y.previous, y.ops) {
      BatchPreimageInjective(x.previous, x.ops, y.previous, y.ops);
      assert ValidOp(x.ops[0], x.start + 0) && ValidOp(y.ops[0], y.start + 0);
    }
  }

  lemma CollisionInPrefix(hash: Bytes -> Digest, a: seq<StoredBatch>, b: seq<StoredBatch>, i: nat, j: nat)
    requires i <= |a| && j <= |b| && BatchesCollide(hash, a[..i], b[..j])
    ensures BatchesCollide(hash, a, b)
  {
    var m, n :| 0 <= m < i && 0 <= n < j && BatchClash(hash, a[..i][m], b[..j][n]);
    assert BatchClash(hash, a[m], b[n]);
  }

  /** The head checksum binds the whole journal. */
  lemma {:induction false} HeadBindsChain(hash: Bytes -> Digest, a: seq<StoredBatch>, b: seq<StoredBatch>)
    requires Linked(BatchChecksum(hash), a) && Linked(BatchChecksum(hash), b) && Head(a) == Head(b)
    ensures a == b || BatchesCollide(hash, a, b)
  {
    if a != [] && b != [] {
      var i, j := |a| - 1, |b| - 1;
      LastBatchValid(BatchChecksum(hash), a);
      LastBatchValid(BatchChecksum(hash), b);
      BatchBinds(hash, a[i], b[j]);
      if a[i] == b[j] {
        HeadBindsChain(hash, a[..i], b[..j]);
        if a[..i] == b[..j] {
          assert a == a[..i] + [a[i]] && b == b[..j] + [b[j]];
        } else {
          CollisionInPrefix(hash, a, b, i, j);
        }
      } else {
        assert BatchClash(hash, a[i], b[j]);
      }
    }
  }

  // ---------- checkpoints ----------

  datatype Checkpoint = Checkpoint(through: Word64, tree: Digest, gitTree: Option<Buffer>, digest: Digest)

  function TreePreimage(ops: seq<JournalOp>): Bytes {
    FrameAll([TREE_DOMAIN] + OpsFields(ops))
  }

  function GitTreeField(gitTree: Option<Buffer>): Bytes {
    match gitTree
    case Some(oid) => oid
    case None => NO_GIT_TREE
  }

  function CheckpointFields(through: Word64, tree: Digest, gitTree: Option<Buffer>): seq<Bytes> {
    [CHECKPOINT_DOMAIN, U64(through), tree, GitTreeField(gitTree)]
  }

  function CheckpointDigest(hash: Bytes -> Digest, through: Word64, tree: Digest, gitTree: Option<Buffer>): Digest {
    FramedDigest(hash, CheckpointFields(through, tree, gitTree))
  }

  function Through(ops: seq<JournalOp>): Word64 {
    if ops == [] then 0 else ops[|ops| - 1].sequence
  }

  /** The checkpoint frozen at the journal head and bound to a Git tree. */
  function CheckpointOf(hash: Bytes -> Digest, ops: seq<JournalOp>, gitTree: Option<Buffer>): (c: Checkpoint)
    ensures IdentityIsValid(hash, c)
  {
    var through, tree := Through(ops), hash(TreePreimage(ops));
    Checkpoint(through, tree, gitTree, CheckpointDigest(hash, through, tree, gitTree))
  }

  /** The checkpoint of a linked chain ends at the number of its operations. */
  lemma CheckpointEndsAtLength(hash: Bytes -> Digest, sum: Checksum, chain: seq<StoredBatch>, gitTree: Option<Buffer>)
    requires Linked(sum, chain)
    ensures var ops := ChainOps(chain);
      var c := CheckpointOf(hash, ops, gitTree);
      c.through == |ops| && c.tree == hash(TreePreimage(ops)) && c.gitTree == gitTree
  {
    ChainOpsLength(sum, chain);
  }

  predicate IdentityIsValid(hash: Bytes -> Digest, c: Checkpoint) {
    c.digest == CheckpointDigest(hash, c.through, c.tree, c.gitTree)
  }

  lemma TreeBindsOps(hash: Bytes -> Digest, a: seq<JournalOp>, b: seq<JournalOp>)
    requires hash(TreePreimage(a)) == hash(TreePreimage(b))
    ensures a == b || Collide(hash, TreePreimage(a), TreePreimage(b))
  {
    if TreePreimage(a) == TreePreimage(b) {
      var left, right := [TREE_DOMAIN] + OpsFields(a), [TREE_DOMAIN] + OpsFields(b);
      OpsFieldsAddressable(a);
      OpsFieldsAddressable(b);
      FramesAreUniquelyDecodable(left, right);
      assert left[1..] == OpsFields(a) && right[1..] == OpsFields(b);
      OpsFieldsInjective(a, b);
    }
  }

  /** A checkpoint digest binds the whole operation history and the Git tree.
      A Git object id is algorithm-tagged, so it is never the text `none`. */
  lemma CheckpointBindsHistory(hash: Bytes -> Digest, a: seq<JournalOp>, g: Option<Buffer>,
                               b: seq<JournalOp>, h: Option<Buffer>)
    requires g != Some(NO_GIT_TREE) && h != Some(NO_GIT_TREE)
    requires CheckpointOf(hash, a, g).digest == CheckpointOf(hash, b, h).digest
    ensures || (a == b && g == h)
            || Collide(hash, TreePreimage(a), TreePreimage(b))
            || Collide(hash, FrameAll(CheckpointFields(Through(a), hash(TreePreimage(a)), g)),
                             FrameAll(CheckpointFields(Through(b), hash(TreePreimage(b)), h)))
  {
    var left := CheckpointFields(Through(a), hash(TreePreimage(a)), g);
    var right := CheckpointFields(Through(b), hash(TreePreimage(b)), h);
    FramedDigestBinds(hash, left, right);
    if left == right {
      assert left[2] == right[2] && left[3] == right[3];
      TreeBindsOps(hash, a, b);
    }
  }
}
