/** Admission of patch proposals and of raw patch batches. */
module Proposal {
  import opened Framing
  import opened Text
  import opened Paths

  const PROPOSAL_SCHEMA := 1
  const MAX_OPERATIONS := 128
  const MAX_CONTENT_BYTES := 1_048_576
  const MAX_AGGREGATE_BYTES := 32 * 1_048_576

  datatype Preimage = Absent | Present(digest: Digest)
  datatype Mutation = Write(content: Bytes) | Delete
  datatype Operation = Operation(path: string, preimage: Preimage, mutation: Mutation)
  datatype PatchProposal = PatchProposal(schema: nat, operations: seq<Operation>, gates: seq<string>)

  datatype ProposalError =
    | UnsupportedSchema | InvalidOperationCount | GateRequired | DuplicateGate | ContentTooLarge
    | AggregateContentTooLarge | MissingPreimage | PathCollision | PathConflict

  // ---------- portable keys ----------

  /** A fold of each character, which keeps the slash. */
  type Fold = char -> string

  /** The portable collision key: the fold of every character of an already normalised path. */
  function Key(fold: Fold, path: string): string {
    if path == "" then "" else fold(path[0]) + Key(fold, path[1..])
  }

  lemma {:induction false} KeyAppend(fold: Fold, left: string, right: string)
    ensures Key(fold, left + right) == Key(fold, left) + Key(fold, right)
  {
    if left == "" {
      assert left + right == right;
    } else {
      assert (left + right)[1..] == left[1..] + right;
      KeyAppend(fold, left[1..], right);
    }
  }

  /** The two paths are the same letter by letter, up to the fold. */
  predicate FoldAlike(fold: Fold, p: string, q: string) {
    |p| == |q| && forall i :: 0 <= i < |p| ==> fold(p[i]) == fold(q[i])
  }

  /** The pieces one after another. */
  function Glued(pieces: seq<string>): string {
    if pieces == [] then "" else pieces[0] + Glued(pieces[1..])
  }

  /** The key is the fold of every character, in order. */
  lemma {:induction false} KeyIsGlued(fold: Fold, path: string)
    ensures Key(fold, path) == Glued(seq(|path|, i requires 0 <= i < |path| => fold(path[i])))
  {
    if path != "" {
      var pieces := seq(|path|, i requires 0 <= i < |path| => fold(path[i]));
      var rest := path[1..];
      assert pieces[1..] == seq(|rest|, i requires 0 <= i < |rest| => fold(rest[i]));
      KeyIsGlued(fold, rest);
    }
  }

  /** Paths alike up to the fold share a key; where every character folds to one, only they do. */
  lemma {:induction false} AlikeShareKey(fold: Fold, p: string, q: string)
    ensures FoldAlike(fold, p, q) ==> Key(fold, p) == Key(fold, q)
    ensures (forall c :: |fold(c)| == 1) && Key(fold, p) == Key(fold, q) ==> FoldAlike(fold, p, q)
  {
    if p != "" && q != "" {
      AlikeShareKey(fold, p[1..], q[1..]);
      if FoldAlike(fold, p, q) {
        assert FoldAlike(fold, p[1..], q[1..]);
      }
      if (forall c :: |fold(c)| == 1) && Key(fold, p) == Key(fold, q) {
        LetterByLetter(fold, p, q);
      }
    }
  }

  lemma LetterByLetter(fold: Fold, p: string, q: string)
    requires p != "" && q != "" && |fold(p[0])| == |fold(q[0])| == 1 && Key(fold, p) == Key(fold, q)
    requires Key(fold, p[1..]) == Key(fold, q[1..]) ==> FoldAlike(fold, p[1..], q[1..])
    ensures FoldAlike(fold, p, q)
  {
    var a, b := Key(fold, p), Key(fold, q);
    assert a[0] == b[0] && a[1..] == b[1..] && a[1..] == Key(fold, p[1..]) && b[1..] == Key(fold, q[1..]);
    assert fold(p[0]) == [a[0]] && fold(q[0]) == [b[0]];
    forall i | 0 <= i < |p| ensures fold(p[i]) == fold(q[i]) {
      assert i > 0 ==> p[i] == p[1..][i - 1] && q[i] == q[1..][i - 1];
    }
  }

  /** No two of these paths are alike up to the fold. */
  ghost predicate NoneAlike(fold: Fold, paths: seq<string>) {
    forall i, j :: 0 <= i < j < |paths| ==> !FoldAlike(fold, paths[i], paths[j])
  }

  lemma DistinctKeysNoneAlike(fold: Fold, paths: seq<string>, keys: seq<string>)
    requires |keys| == |paths| && Distinct(keys) && forall i :: 0 <= i < |keys| ==> keys[i] == Key(fold, paths[i])
    ensures NoneAlike(fold, paths)
  {
    forall i, j | 0 <= i < j < |paths| ensures !FoldAlike(fold, paths[i], paths[j]) {
      assert keys[i] != keys[j];
      AlikeShareKey(fold, paths[i], paths[j]);
    }
  }

  lemma KeyKeepsWithin(fold: Fold, a: string, b: string)
    requires fold('/') == "/" && IsWithin(a, b)
    ensures IsWithin(Key(fold, a), Key(fold, b))
  {
    if a != b {
      var rest := b[|a| + 1..];
      assert b == a + ("/" + rest) && ("/" + rest)[1..] == rest;
      KeyAppend(fold, a, "/" + rest);
      assert Key(fold, b) == Key(fold, a) + ("/" + Key(fold, rest));
    }
  }

  function Keys(fold: Fold, operations: seq<Operation>): (keys: seq<string>)
    ensures |keys| == |operations|
  {
    seq(|operations|, i requires 0 <= i < |operations| => Key(fold, operations[i].path))
  }

  function PathsOf(operations: seq<Operation>): (paths: seq<string>)
    ensures |paths| == |operations|
  {
    seq(|operations|, i requires 0 <= i < |operations| => operations[i].path)
  }

  /** Folded keys that form an antichain come from paths that do. */
  lemma FoldedAntichain(fold: Fold, operations: seq<Operation>)
    requires fold('/') == "/" && Antichain(Keys(fold, operations))
    ensures Antichain(PathsOf(operations))
  {
    var paths, keys := PathsOf(operations), Keys(fold, operations);
    forall i, j | 0 <= i < j < |paths| ensures !Overlap(paths[i], paths[j]) {
      assert !Overlap(keys[i], keys[j]);
      if IsWithin(paths[i], paths[j]) {
        KeyKeepsWithin(fold, paths[i], paths[j]);
      }
      if IsWithin(paths[j], paths[i]) {
        KeyKeepsWithin(fold, paths[j], paths[i]);
      }
    }
  }

  // ---------- proposals ----------

  function ContentBytes(m: Mutation): nat {
    match m case Write(content) => |content| case Delete => 0
  }

  function TotalBytes(operations: seq<Operation>): nat {
    if operations == [] then 0
    else TotalBytes(operations[..|operations| - 1]) + ContentBytes(operations[|operations| - 1].mutation)
  }

  lemma {:induction false} TotalGrows(operations: seq<Operation>, n: nat)
    requires n <= |operations|
    ensures TotalBytes(operations[..n]) <= TotalBytes(operations)
    decreases |operations|
  {
    if n < |operations| {
      TotalGrows(operations[..|operations| - 1], n);
      assert operations[..|operations| - 1][..n] == operations[..n];
    } else {
      assert operations[..n] == operations;
    }
  }

  /** Everything that the operations write, one after another. */
  function Contents(operations: seq<Operation>): Bytes {
    if operations == [] then []
    else
      var last := operations[|operations| - 1].mutation;
      Contents(operations[..|operations| - 1]) + if last.Write? then last.content else []
  }

  /** The bytes counted are the bytes written. */
  lemma {:induction false} TotalIsWritten(operations: seq<Operation>)
    ensures TotalBytes(operations) == |Contents(operations)|
  {
    if operations != [] {
      TotalIsWritten(operations[..|operations| - 1]);
    }
  }

  predicate OperationAdmitted(o: Operation) {
    ContentBytes(o.mutation) <= MAX_CONTENT_BYTES && !(o.mutation.Delete? && o.preimage.Absent?)
  }

  predicate Distinct(items: seq<string>) {
    forall i, j :: 0 <= i < j < |items| ==> items[i] != items[j]
  }

  lemma RepeatIsNotDistinct(items: seq<string>, n: nat)
    requires n < |items| && items[n] in items[..n]
    ensures !Distinct(items)
  {
    var i :| 0 <= i < n && items[i] == items[n];
  }

  /** What a proposal must satisfy. */
  ghost predicate Admissible(fold: Fold, p: PatchProposal) {
    && p.schema == PROPOSAL_SCHEMA && 1 <= |p.operations| <= MAX_OPERATIONS
    && p.gates != [] && Distinct(p.gates)
    && (forall i :: 0 <= i < |p.operations| ==> OperationAdmitted(p.operations[i]))
    && TotalBytes(p.operations) <= MAX_AGGREGATE_BYTES
    && Antichain(Keys(fold, p.operations))
  }

  /** Bounds, preimages and distinct keys, operation by operation. */
  method CheckOperations(fold: Fold, operations: seq<Operation>) returns (r: Result<seq<string>, ProposalError>)
    ensures r.Ok? <==>
      && (forall i :: 0 <= i < |operations| ==> OperationAdmitted(operations[i]))
      && TotalBytes(operations) <= MAX_AGGREGATE_BYTES && Distinct(Keys(fold, operations))
    ensures r.Ok? ==> r.value == Keys(fold, operations)
    ensures r.Err? ==> r.error in {ContentTooLarge, AggregateContentTooLarge, MissingPreimage, PathCollision}
  {
    var keys: seq<string> := [];
    var aggregate := 0;
    for n := 0 to |operations|
      invariant keys == Keys(fold, operations)[..n] && Distinct(keys)
      invariant aggregate == TotalBytes(operations[..n]) && aggregate <= MAX_AGGREGATE_BYTES
      invariant forall i :: 0 <= i < n ==> OperationAdmitted(operations[i])
    {
      var o := operations[n];
      assert operations[..n + 1][..n] == operations[..n];
      if ContentBytes(o.mutation) > MAX_CONTENT_BYTES {
        return Err(ContentTooLarge);
      }
      aggregate := aggregate + ContentBytes(o.mutation);
      if aggregate > MAX_AGGREGATE_BYTES {
        TotalGrows(operations, n + 1);
        return Err(AggregateContentTooLarge);
      }
      if o.mutation.Delete? && o.preimage.Absent? {
        return Err(MissingPreimage);
      }
      var key := Key(fold, o.path);
      if key in keys {
        RepeatIsNotDistinct(Keys(fold, operations), n);
        return Err(PathCollision);
      }
      keys := keys + [key];
    }
    assert operations[..|operations|] == operations;
    return Ok(keys);
  }

  /** No key contains another. */
  method CheckConflicts(keys: seq<string>) returns (clear: bool)
    requires Distinct(keys)
    ensures clear <==> Antichain(keys)
  {
    for i := 0 to |keys|
      invariant forall a, b :: 0 <= a < i && a < b < |keys| ==> !Overlap(keys[a], keys[b])
    {
      for j := i + 1 to |keys|
        invariant forall b :: i < b < j ==> !Overlap(keys[i], keys[b])
      {
        if IsWithin(keys[i], keys[j]) || IsWithin(keys[j], keys[i]) {
          return false;
        }
      }
    }
    return true;
  }

  /** Validate a proposal: accepted exactly when it is admissible. */
  method Validate(fold: Fold, p: PatchProposal) returns (r: Result<(), ProposalError>)
    ensures r.Ok? <==> Admissible(fold, p)
    ensures r.Ok? ==>
      && NoneAlike(fold, PathsOf(p.operations)) && |Contents(p.operations)| <= MAX_AGGREGATE_BYTES
      && forall o :: o in p.operations ==>
           && (o.mutation.Write? ==> |o.mutation.content| <= MAX_CONTENT_BYTES)
           && (o.mutation.Delete? ==> o.preimage.Present?)
    ensures p.schema != PROPOSAL_SCHEMA ==> r == Err(UnsupportedSchema)
  {
    if p.schema != PROPOSAL_SCHEMA {
      return Err(UnsupportedSchema);
    }
    if p.operations == [] || |p.operations| > MAX_OPERATIONS {
      return Err(InvalidOperationCount);
    }
    if p.gates == [] {
      return Err(GateRequired);
    }
    if !Distinct(p.gates) {
      return Err(DuplicateGate);
    }
    var keys := CheckOperations(fold, p.operations);
    AntichainIsDistinct(Keys(fold, p.operations));
    if keys.Err? {
      return Err(keys.error);
    }
    DistinctKeysNoneAlike(fold, PathsOf(p.operations), keys.value);
    TotalIsWritten(p.operations);
    var clear := CheckConflicts(keys.value);
    return if clear then Ok(()) else Err(PathConflict);
  }

  lemma AntichainIsDistinct(paths: seq<string>)
    ensures Antichain(paths) ==> Distinct(paths)
  {
    if Antichain(paths) {
      forall i, j | 0 <= i < j < |paths| ensures paths[i] != paths[j] {
        assert !Overlap(paths[i], paths[j]);
      }
    }
  }

  /** An accepted proposal touches paths of which none equals, contains or lies inside another. */
  lemma AdmissiblePathsAreAntichain(fold: Fold, p: PatchProposal)
    requires fold('/') == "/" && Admissible(fold, p)
    ensures Antichain(PathsOf(p.operations))
  {
    FoldedAntichain(fold, p.operations);
  }

  // ---------- raw batches ----------

  datatype Hunk = Hunk(path: string, mutation: Mutation)

  datatype BatchError = BadCount | OutOfScope | TooLarge | AggregateTooLarge | DuplicatePath | Collision | PathAbsent

  function Total(patches: seq<Hunk>): nat {
    if patches == [] then 0 else Total(patches[..|patches| - 1]) + ContentBytes(patches[|patches| - 1].mutation)
  }

  lemma {:induction false} BatchTotalGrows(patches: seq<Hunk>, n: nat)
    requires n <= |patches|
    ensures Total(patches[..n]) <= Total(patches)
    decreases |patches|
  {
    if n < |patches| {
      BatchTotalGrows(patches[..|patches| - 1], n);
      assert patches[..|patches| - 1][..n] == patches[..n];
    } else {
      assert patches[..n] == patches;
    }
  }

  /** Everything that the batch writes, one after another. */
  function BatchContents(patches: seq<Hunk>): Bytes {
    if patches == [] then []
    else
      var last := patches[|patches| - 1].mutation;
      BatchContents(patches[..|patches| - 1]) + if last.Write? then last.content else []
  }

  lemma {:induction false} BatchTotalIsWritten(patches: seq<Hunk>)
    ensures Total(patches) == |BatchContents(patches)|
  {
    if patches != [] {
      BatchTotalIsWritten(patches[..|patches| - 1]);
    }
  }

  function Normalized(nfc: string -> string, patches: seq<Hunk>): (paths: seq<string>)
    ensures |paths| == |patches|
  {
    seq(|patches|, i requires 0 <= i < |patches| => nfc(patches[i].path))
  }

  function FoldedPaths(nfc: string -> string, fold: Fold, patches: seq<Hunk>): (keys: seq<string>)
    ensures |keys| == |patches|
  {
    seq(|patches|, i requires 0 <= i < |patches| => Key(fold, nfc(patches[i].path)))
  }

  predicate InScope(nfc: string -> string, grant: seq<string>, raw: string) {
    Normal(nfc(raw)) && Permits(grant, nfc(raw))
  }

  /** Normalise a raw path and check coverage in one step. */
  method CheckScope(nfc: string -> string, grant: seq<string>, raw: string) returns (r: Result<string, BatchError>)
    ensures r == if InScope(nfc, grant, raw) then Ok(nfc(raw)) else Err(OutOfScope)
  {
    var path := NormalizeRelPath(nfc, raw);
    return if path.Ok? && Permits(grant, path.value) then Ok(path.value) else Err(OutOfScope);
  }

  predicate HunkAdmitted(nfc: string -> string, grant: seq<string>, exists_: string -> bool, h: Hunk) {
    && InScope(nfc, grant, h.path) && ContentBytes(h.mutation) <= MAX_CONTENT_BYTES
    && (h.mutation.Delete? ==> exists_(nfc(h.path)))
  }

  ghost predicate BatchAdmitted(nfc: string -> string, fold: Fold, grant: seq<string>, patches: seq<Hunk>,
                                exists_: string -> bool) {
    && 1 <= |patches| <= MAX_OPERATIONS && Total(patches) <= MAX_AGGREGATE_BYTES
    && (forall i :: 0 <= i < |patches| ==> HunkAdmitted(nfc, grant, exists_, patches[i]))
    && Distinct(FoldedPaths(nfc, fold, patches))
  }

  /** What one patch must satisfy given the bytes, paths and keys before it. */
  predicate Follows(nfc: string -> string, fold: Fold, grant: seq<string>, exists_: string -> bool, h: Hunk,
                    aggregate: nat, normalized: seq<string>, keys: seq<string>) {
    && HunkAdmitted(nfc, grant, exists_, h) && aggregate + ContentBytes(h.mutation) <= MAX_AGGREGATE_BYTES
    && nfc(h.path) !in normalized && Key(fold, nfc(h.path)) !in keys
  }

  method CheckHunk(nfc: string -> string, fold: Fold, grant: seq<string>, exists_: string -> bool, h: Hunk,
                   aggregate: nat, normalized: seq<string>, keys: seq<string>) returns (r: Result<string, BatchError>)
    ensures r.Ok? <==> Follows(nfc, fold, grant, exists_, h, aggregate, normalized, keys)
    ensures r.Ok? ==> r.value == nfc(h.path)
  {
    var path := CheckScope(nfc, grant, h.path);
    if path.Err? {
      return Err(OutOfScope);
    }
    if ContentBytes(h.mutation) > MAX_CONTENT_BYTES {
      return Err(TooLarge);
    }
    if aggregate + ContentBytes(h.mutation) > MAX_AGGREGATE_BYTES {
      return Err(AggregateTooLarge);
    }
    if path.value in normalized {
      return Err(DuplicatePath);
    }
    if Key(fold, path.value) in keys {
      return Err(Collision);
    }
    if h.mutation.Delete? && !exists_(path.value) {
      return Err(PathAbsent);
    }
    return path;
  }

  /** Every patch of an admitted batch passes the checks against those before it. */
  lemma AdmittedFollows(nfc: string -> string, fold: Fold, grant: seq<string>, patches: seq<Hunk>,
                        exists_: string -> bool, n: nat)
    requires BatchAdmitted(nfc, fold, grant, patches, exists_) && n < |patches|
    ensures FollowsAt(nfc, fold, grant, patches, exists_, n)
  {
    BatchTotalGrows(patches, n + 1);
    assert patches[..n + 1][..n] == patches[..n];
    var paths, keys := Normalized(nfc, patches), FoldedPaths(nfc, fold, patches);
    if paths[n] in paths[..n] {
      SamePathSameKey(nfc, fold, patches, n);
    }
    if keys[n] in keys[..n] {
      RepeatIsNotDistinct(keys, n);
    }
  }

  /** Patch `n` passes the checks against those before it. */
  predicate FollowsAt(nfc: string -> string, fold: Fold, grant: seq<string>, patches: seq<Hunk>,
                      exists_: string -> bool, n: nat)
    requires n < |patches|
  {
    Follows(nfc, fold, grant, exists_, patches[n], Total(patches[..n]),
            Normalized(nfc, patches)[..n], FoldedPaths(nfc, fold, patches)[..n])
  }

  /** A batch whose patches all pass is admitted. */
  lemma FollowedIsAdmitted(nfc: string -> string, fold: Fold, grant: seq<string>, patches: seq<Hunk>,
                           exists_: string -> bool)
    requires 1 <= |patches| <= MAX_OPERATIONS
    requires forall i :: 0 <= i < |patches| ==> FollowsAt(nfc, fold, grant, patches, exists_, i)
    ensures BatchAdmitted(nfc, fold, grant, patches, exists_)
  {
    var last := |patches| - 1;
    assert FollowsAt(nfc, fold, grant, patches, exists_, last) && patches == patches[..last] + [patches[last]];
    var keys := FoldedPaths(nfc, fold, patches);
    forall i, j | 0 <= i < j < |keys| ensures keys[i] != keys[j] {
      assert FollowsAt(nfc, fold, grant, patches, exists_, j) && keys[..j][i] == keys[i];
    }
    forall i | 0 <= i < |patches| ensures HunkAdmitted(nfc, grant, exists_, patches[i]) {
      assert FollowsAt(nfc, fold, grant, patches, exists_, i);
    }
  }

  /** Validate a raw batch.  Accepted exactly when every path is in scope, bounds hold, folded
      paths are distinct and deleted files exist; nested paths are not refused here. */
  method ValidateBatch(nfc: string -> string, fold: Fold, grant: seq<string>, patches: seq<Hunk>,
                       exists_: string -> bool)
    returns (r: Result<seq<string>, BatchError>)
    ensures r.Ok? <==> BatchAdmitted(nfc, fold, grant, patches, exists_)
    ensures r.Ok? ==> r.value == Normalized(nfc, patches) && NoneAlike(fold, r.value)
    ensures r.Ok? ==>
      && |BatchContents(patches)| <= MAX_AGGREGATE_BYTES
      && forall h :: h in patches ==>
           && EscapeFree(nfc(h.path)) && SomeWithin(grant, nfc(h.path))
           && (h.mutation.Write? ==> |h.mutation.content| <= MAX_CONTENT_BYTES)
           && (h.mutation.Delete? ==> exists_(nfc(h.path)))
  {
    if patches == [] || |patches| > MAX_OPERATIONS {
      return Err(BadCount);
    }
    var normalized: seq<string> := [];
    var keys: seq<string> := [];
    var aggregate := 0;
    for n := 0 to |patches|
      invariant normalized == Normalized(nfc, patches)[..n] && keys == FoldedPaths(nfc, fold, patches)[..n]
      invariant aggregate == Total(patches[..n])
      invariant forall i :: 0 <= i < n ==> FollowsAt(nfc, fold, grant, patches, exists_, i)
    {
      var path := CheckHunk(nfc, fold, grant, exists_, patches[n], aggregate, normalized, keys);
      if path.Err? {
        if BatchAdmitted(nfc, fold, grant, patches, exists_) {
          AdmittedFollows(nfc, fold, grant, patches, exists_, n);
        }
        return Err(path.error);
      }
      assert patches[..n + 1][..n] == patches[..n];
      aggregate := aggregate + ContentBytes(patches[n].mutation);
      normalized := normalized + [path.value];
      keys := keys + [Key(fold, path.value)];
    }
    FollowedIsAdmitted(nfc, fold, grant, patches, exists_);
    DistinctKeysNoneAlike(fold, normalized, keys);
    BatchTotalIsWritten(patches);
    forall h | h in patches ensures EscapeFree(nfc(h.path)) && SomeWithin(grant, nfc(h.path)) {
      NormalExactly(nfc(h.path));
      PermitsAgrees(grant, nfc(h.path));
    }
    return Ok(normalized);
  }

  lemma SamePathSameKey(nfc: string -> string, fold: Fold, patches: seq<Hunk>, n: nat)
    requires n < |patches| && nfc(patches[n].path) in Normalized(nfc, patches)[..n]
    ensures !Distinct(FoldedPaths(nfc, fold, patches))
  {
    var i :| 0 <= i < n && Normalized(nfc, patches)[i] == nfc(patches[n].path);
    assert FoldedPaths(nfc, fold, patches)[i] == FoldedPaths(nfc, fold, patches)[n];
  }

  /** Batch admission does not refuse nesting: this batch writes a file and a file inside it. */
  lemma NestedBatchIsAdmitted()
    ensures var same, letters := (path: string) => path, (c: char) => [c];
      var batch := [Hunk("a", Write([])), Hunk("a/b", Write([]))];
      && BatchAdmitted(same, letters, ["a"], batch, path => false)
      && !Antichain(Normalized(same, batch))
  {
    var same, letters := (path: string) => path, (c: char) => [c];
    var batch := [Hunk("a", Write([])), Hunk("a/b", Write([]))];
    NestedPathsInScope();
    assert HunkAdmitted(same, ["a"], path => false, batch[0]);
    assert HunkAdmitted(same, ["a"], path => false, batch[1]);
    assert Total(batch) == 0 by {
      assert batch[..1][..0] == [] && Total(batch[..1]) == 0;
    }
    KeyOfLetters("a");
    KeyOfLetters("a/b");
    assert IsWithin(Normalized(same, batch)[0], Normalized(same, batch)[1]);
  }

  lemma NestedPathsInScope()
    ensures InScope((path: string) => path, ["a"], "a") && InScope((path: string) => path, ["a"], "a/b")
  {
    SplitOne("a", '/');
    SplitAppend("a", "b");
    SplitOne("b", '/');
    assert "a" + "/" + "b" == "a/b";
    assert Segments("a") == ["a"] && Segments("a/b") == ["a", "b"];
    assert Covers(["a"][0], "a") && Covers(["a"][0], "a/b");
  }

  lemma {:induction false} KeyOfLetters(path: string)
    ensures Key((c: char) => [c], path) == path
  {
    if path != "" {
      KeyOfLetters(path[1..]);
    }
  }
}
