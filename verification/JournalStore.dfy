/** The batch directory of a durable journal: loading, appending and crashes. */
module JournalStore {
  import opened Framing
  import opened Names
  import opened Text
  import opened Durability
  import opened Journal

  /** What a regular file holds: a decoded batch, or bytes that do not decode. */
  type Content = Option<StoredBatch>
  type BatchFile = Item<Content>

  datatype JournalError = Io | Corrupt | Poisoned

  // ---------- names ----------

  predicate IsTempName(name: string) {
    && ".batch-" <= name && HasSuffix(name, ".tmp") && |name| >= 11
    && var fields := Split(name[7..|name| - 4], '-');
      && |fields| == 5
      && |fields[0]| == PADDED_DIGITS && AllDigits(fields[0])
      && |fields[1]| == PADDED_DIGITS && AllDigits(fields[1])
      && fields[2] != "" && AllDigits(fields[2])
      && IsDigestName(fields[3])
      && fields[4] != "" && AllDigits(fields[4])
  }

  function StagingName(batch: StoredBatch, pid: string, attempt: string): string {
    ".batch-" + Join([Padded(batch.start, PADDED_DIGITS), Padded(batch.end, PADDED_DIGITS),
                      pid, ToHex(batch.checksum), attempt], '-') + ".tmp"
  }

  lemma StagingNameIsTemp(batch: StoredBatch, pid: string, attempt: string)
    requires pid != "" && AllDigits(pid) && attempt != "" && AllDigits(attempt)
    ensures IsTempName(StagingName(batch, pid, attempt))
  {
    var fields := [Padded(batch.start, PADDED_DIGITS), Padded(batch.end, PADDED_DIGITS),
                   pid, ToHex(batch.checksum), attempt];
    var name := StagingName(batch, pid, attempt);
    assert name[7..|name| - 4] == Join(fields, '-');
    SplitJoin(fields, '-');
  }

  lemma TempNamesAreNotBatches(name: string)
    requires IsTempName(name)
    ensures ParseBatchName(name).None?
  {
    assert name[|name| - 1] == name[|name| - 4..][3] == 'p';
  }

  /** The staging name of a range, process, checksum and attempt. */
  ghost predicate IsStagedAs(name: string, start: nat, end: nat, pid: string, checksum: Digest, attempt: string) {
    && pid != "" && AllDigits(pid) && attempt != "" && AllDigits(attempt)
    && name == ".batch-" + Join([Padded(start, PADDED_DIGITS), Padded(end, PADDED_DIGITS), pid, ToHex(checksum),
                                 attempt], '-') + ".tmp"
  }

  lemma StagedAsIsTemp(name: string, start: nat, end: nat, pid: string, checksum: Digest, attempt: string)
    requires IsStagedAs(name, start, end, pid, checksum, attempt)
    ensures IsTempName(name)
  {
    var fields := [Padded(start, PADDED_DIGITS), Padded(end, PADDED_DIGITS), pid, ToHex(checksum), attempt];
    assert name[7..|name| - 4] == Join(fields, '-');
    SplitJoin(fields, '-');
  }

  /** Exactly the names of that form are passed over as staging. */
  lemma TempNameExact(name: string)
    ensures IsTempName(name) <==>
      exists start, end, pid, checksum, attempt :: IsStagedAs(name, start, end, pid, checksum, attempt)
  {
    if IsTempName(name) {
      var middle := name[7..|name| - 4];
      var fields := Split(middle, '-');
      JoinSplit(middle, '-');
      PaddedParsed(fields[0]);
      PaddedParsed(fields[1]);
      ToHexFromHex(fields[3]);
      assert fields == [fields[0], fields[1], fields[2], fields[3], fields[4]];
      assert name == ".batch-" + middle + ".tmp";
      assert IsStagedAs(name, Parsed(fields[0]), Parsed(fields[1]), fields[2], FromHex(fields[3]), fields[4]);
    }
    forall start, end, pid, checksum, attempt | IsStagedAs(name, start, end, pid, checksum, attempt)
      ensures IsTempName(name)
    {
      StagedAsIsTemp(name, start, end, pid, checksum, attempt);
    }
  }

  function FileName(batch: StoredBatch): string {
    BatchName(batch.start, batch.end)
  }

  // ---------- what a directory holds ----------

  /** The batch files of `files` are exactly `chain`; everything else is a staging orphan. */
  ghost predicate Stores(files: map<string, BatchFile>, chain: seq<StoredBatch>) {
    && (forall i :: 0 <= i < |chain| ==>
          FileName(chain[i]) in files && files[FileName(chain[i])].data == Some(chain[i]))
    && (forall name :: name in files ==> files[name].kind == Regular)
    && (forall name :: name in files ==>
          IsTempName(name) || exists i :: 0 <= i < |chain| && name == FileName(chain[i]))
  }

  // ---------- ordering by range ----------

  type Ranged = ((nat, nat), Content)

  predicate Below(a: (nat, nat), b: (nat, nat)) {
    a.0 < b.0 || (a.0 == b.0 && a.1 < b.1)
  }

  ghost predicate StrictlySorted(s: seq<Ranged>) {
    forall i, j :: 0 <= i < j < |s| ==> Below(s[i].0, s[j].0)
  }

  function InsertSorted(x: Ranged, s: seq<Ranged>): (r: seq<Ranged>)
    ensures forall y :: y in r <==> y == x || y in s
  {
    if s == [] || !Below(s[0].0, x.0) then [x] + s else [s[0]] + InsertSorted(x, s[1..])
  }

  lemma {:induction false} InsertSortedSorts(x: Ranged, s: seq<Ranged>)
    requires StrictlySorted(s) && forall y :: y in s ==> y.0 != x.0
    ensures StrictlySorted(InsertSorted(x, s))
  {
    if s != [] {
      assert s[0] in s && forall y :: y in s[1..] ==> y in s;
      if Below(s[0].0, x.0) {
        InsertSortedSorts(x, s[1..]);
        var r := InsertSorted(x, s[1..]);
        assert forall y :: y in r ==> Below(s[0].0, y.0);
      }
    }
  }

  lemma {:induction false} SortedUnique(a: seq<Ranged>, b: seq<Ranged>)
    requires StrictlySorted(a) && StrictlySorted(b)
    requires forall x :: x in a <==> x in b
    ensures a == b
  {
    assert b != [] ==> b[0] in b;
    if a != [] {
      assert a[0] in a && a[0] in b;
      assert b[0] in a;
      assert a[0] == b[0];
      assert forall x :: x in a[1..] <==> x in a && x != a[0];
      assert forall x :: x in b[1..] <==> x in b && x != b[0];
      SortedUnique(a[1..], b[1..]);
      assert a == [a[0]] + a[1..] && b == [b[0]] + b[1..];
    }
  }

  /** A chain as the sorted list of ranges and contents that loading walks. */
  function Image(chain: seq<StoredBatch>): seq<Ranged> {
    seq(|chain|, i requires 0 <= i < |chain| => ((chain[i].start as nat, chain[i].end as nat), Some(chain[i])))
  }

  /** Batches cover disjoint, increasing ranges. */
  ghost predicate Increasing(chain: seq<StoredBatch>) {
    && (forall i :: 0 <= i < |chain| ==> chain[i].start <= chain[i].end)
    && (forall i, j :: 0 <= i < j < |chain| ==> chain[i].end < chain[j].start)
  }

  lemma LastSpan(sum: Checksum, chain: seq<StoredBatch>)
    requires chain != [] && Linked(sum, chain)
    ensures chain[|chain| - 1].start == NextSequence(chain[..|chain| - 1])
    ensures chain[|chain| - 1].start <= chain[|chain| - 1].end
  {
    var last := chain[|chain| - 1];
    assert ValidOp(last.ops[|last.ops| - 1], last.start + (|last.ops| - 1));
  }

  lemma IncreasingExtends(front: seq<StoredBatch>, last: StoredBatch)
    requires Increasing(front) && last.start == NextSequence(front) && last.start <= last.end
    ensures Increasing(front + [last])
  {
    forall i | 0 <= i < |front| ensures front[i].end < last.start {
      assert i < |front| - 1 ==> front[i].end < front[|front| - 1].start;
    }
  }

  lemma {:induction false} ChainIncreases(sum: Checksum, chain: seq<StoredBatch>)
    requires Linked(sum, chain)
    ensures Increasing(chain)
  {
    if chain != [] {
      var front, last := chain[..|chain| - 1], chain[|chain| - 1];
      ChainIncreases(sum, front);
      LastSpan(sum, chain);
      IncreasingExtends(front, last);
      assert chain == front + [last];
    }
  }

  lemma ImageSorted(chain: seq<StoredBatch>)
    requires Increasing(chain)
    ensures StrictlySorted(Image(chain))
  {
  }

  // ---------- loading ----------

  predicate Yields(entry: (string, BatchFile), x: Ranged) {
    ParseBatchName(entry.0) == Some(x.0) && entry.1.data == x.1
  }

  ghost predicate Collected(listing: seq<(string, BatchFile)>, batches: seq<Ranged>) {
    && (forall x :: x in batches ==> exists e :: e in listing && Yields(e, x))
    && (forall e, x :: e in listing && Yields(e, x) ==> x in batches)
  }

  /** The collected batches of a directory that stores a chain are that chain, in order. */
  lemma CollectedIsImage(sum: Checksum, listing: seq<(string, BatchFile)>,
                         files: map<string, BatchFile>, batches: seq<Ranged>, chain: seq<StoredBatch>)
    requires Lists(listing, files) && Collected(listing, batches) && StrictlySorted(batches)
    requires Stores(files, chain) && Chained(sum, chain)
    ensures batches == Image(chain)
  {
    ChainIncreases(sum, chain);
    ImageSorted(chain);
    forall x | x in batches ensures x in Image(chain) {
      var e :| e in listing && Yields(e, x);
      StoredEntryInImage(listing, files, chain, e, x);
    }
    forall x | x in Image(chain) ensures x in batches {
      var k :| 0 <= k < |chain| && x == Image(chain)[k];
      var name := FileName(chain[k]);
      BatchNameExact(name, chain[k].start, chain[k].end);
      assert (name, files[name]) in listing && Yields((name, files[name]), x);
    }
    SortedUnique(batches, Image(chain));
  }

  lemma StoredEntryInImage(listing: seq<(string, BatchFile)>, files: map<string, BatchFile>,
                           chain: seq<StoredBatch>, e: (string, BatchFile), x: Ranged)
    requires Lists(listing, files) && Stores(files, chain) && e in listing && Yields(e, x)
    ensures x in Image(chain)
  {
    if IsTempName(e.0) {
      TempNamesAreNotBatches(e.0);
    }
    var k :| 0 <= k < |chain| && e.0 == FileName(chain[k]);
    BatchNameExact(e.0, chain[k].start, chain[k].end);
    assert x == Image(chain)[k];
  }

  /** Load every batch of a directory, in whatever order it is enumerated.

      Loading succeeds exactly when the directory stores a reloadable chain, and
      then returns the operations and head of that chain.  A directory that stores a
      linked chain up to the largest 64-bit number is refused. */
  method LoadBatches(sum: Checksum, listing: seq<(string, BatchFile)>, ghost files: map<string, BatchFile>)
    returns (r: Result<(seq<JournalOp>, Option<Digest>), JournalError>)
    requires Lists(listing, files)
    ensures r.Ok? <==> exists chain :: Stores(files, chain) && Chained(sum, chain)
    ensures forall chain :: Stores(files, chain) && Chained(sum, chain) ==>
              r == Ok((ChainOps(chain), Head(chain)))
    ensures forall chain :: Stores(files, chain) && Linked(sum, chain) ==>
              (r.Ok? <==> NextSequence(chain) < TWO_TO_THE_64)
  {
    forall chain | Stores(files, chain) && Linked(sum, chain)
      ensures (exists c :: Stores(files, c) && Chained(sum, c)) <==> NextSequence(chain) < TWO_TO_THE_64
    {
      FullJournalDoesNotLoad(sum, files, chain);
    }
    var batches: seq<Ranged>;
    var accepted: bool;
    accepted, batches := CollectBatches(listing);
    if !accepted {
      forall chain: seq<StoredBatch> | Stores(files, chain) ensures false {
        var e :| e in listing && !Acceptable(e);
        var k :| 0 <= k < |chain| && e.0 == FileName(chain[k]);
        BatchNameExact(e.0, chain[k].start, chain[k].end);
      }
      return Err(Corrupt);
    }
    CollectCollects(listing);
    r := WalkBatches(sum, batches);
    forall chain | Stores(files, chain) && Chained(sum, chain)
      ensures r == Ok((ChainOps(chain), Head(chain)))
    {
      CollectedIsImage(sum, listing, files, batches, chain);
    }
    if r.Ok? {
      ghost var chain :| Chained(sum, chain) && Image(chain) == batches;
      ImageIsStored(listing, files, batches, chain);
    }
  }

  lemma ImageIsStored(listing: seq<(string, BatchFile)>, files: map<string, BatchFile>,
                      batches: seq<Ranged>, chain: seq<StoredBatch>)
    requires Lists(listing, files) && Collected(listing, batches) && batches == Image(chain)
    requires forall e :: e in listing ==> Acceptable(e)
    ensures Stores(files, chain)
  {
    forall k | 0 <= k < |chain|
      ensures FileName(chain[k]) in files && files[FileName(chain[k])].data == Some(chain[k])
    {
      assert Image(chain)[k] in batches;
      var e :| e in listing && Yields(e, Image(chain)[k]);
      BatchNameExact(e.0, chain[k].start, chain[k].end);
    }
    forall name | name in files
      ensures files[name].kind == Regular
      ensures IsTempName(name) || exists k :: 0 <= k < |chain| && name == FileName(chain[k])
    {
      var e := (name, files[name]);
      assert e in listing && Acceptable(e);
      if !IsTempName(name) {
        var x := (ParseBatchName(name).value, files[name].data);
        assert Yields(e, x) && x in batches;
        var k :| 0 <= k < |chain| && Image(chain)[k] == x;
        BatchNameExact(name, x.0.0, x.0.1);
      }
    }
  }

  predicate Acceptable(entry: (string, BatchFile)) {
    entry.1.kind == Regular && (ParseBatchName(entry.0).Some? || IsTempName(entry.0))
  }

  /** The batch entries of a listing, ordered by range. */
  function Collect(listing: seq<(string, BatchFile)>): seq<Ranged> {
    if listing == [] then []
    else
      var last, rest := listing[|listing| - 1], Collect(listing[..|listing| - 1]);
      match ParseBatchName(last.0)
      case None => rest
      case Some(range) => InsertSorted((range, last.1.data), rest)
  }

  lemma {:induction false} CollectCollects(listing: seq<(string, BatchFile)>)
    requires forall i, j :: 0 <= i < j < |listing| ==> listing[i].0 != listing[j].0
    ensures Collected(listing, Collect(listing)) && StrictlySorted(Collect(listing))
  {
    if listing != [] {
      var n := |listing| - 1;
      var front, last := listing[..n], listing[n];
      CollectCollects(front);
      assert forall e :: e in listing <==> e in front || e == last;
      if ParseBatchName(last.0).Some? {
        var x := (ParseBatchName(last.0).value, last.1.data);
        forall y | y in Collect(front) ensures y.0 != x.0 {
          var e :| e in front && Yields(e, y);
          BatchNameExact(e.0, y.0.0, y.0.1);
          BatchNameExact(last.0, x.0.0, x.0.1);
        }
        InsertSortedSorts(x, Collect(front));
        assert Yields(last, x);
      }
    }
  }

  /** Keep the batch files, skip staging orphans, refuse anything else. */
  method CollectBatches(listing: seq<(string, BatchFile)>) returns (accepted: bool, batches: seq<Ranged>)
    ensures accepted <==> forall e :: e in listing ==> Acceptable(e)
    ensures accepted ==> batches == Collect(listing)
  {
    batches := [];
    for n := 0 to |listing|
      invariant forall e :: e in listing[..n] ==> Acceptable(e)
      invariant batches == Collect(listing[..n])
    {
      if !Acceptable(listing[n]) {
        return false, batches;
      }
      assert listing[..n + 1][..n] == listing[..n];
      var range := ParseBatchName(listing[n].0);
      if range.Some? {
        batches := InsertSorted((range.value, listing[n].1.data), batches);
      }
    }
    assert listing[..|listing|] == listing;
    accepted := true;
  }

  /** Walk the sorted batches, checking sequence, chain and checksum. */
  method WalkBatches(sum: Checksum, batches: seq<Ranged>)
    returns (r: Result<(seq<JournalOp>, Option<Digest>), JournalError>)
    ensures r.Ok? <==> exists chain :: Chained(sum, chain) && Image(chain) == batches
    ensures forall chain :: Chained(sum, chain) && Image(chain) == batches ==>
              r == Ok((ChainOps(chain), Head(chain)))
  {
    var ops: seq<JournalOp>, previous: Option<Digest>, expected: nat := [], None, 1;
    ghost var chain: seq<StoredBatch> := [];
    for n := 0 to |batches|
      invariant Chained(sum, chain) && Image(chain) == batches[..n]
      invariant ops == ChainOps(chain) && previous == Head(chain) && expected == NextSequence(chain)
    {
      if batches[n].1.None? {
        NoChain(sum, batches, n, chain);
        return Err(Corrupt);
      }
      var batch := batches[n].1.value;
      if !ValidBatch(sum, batch, batches[n].0.0, batches[n].0.1, expected, previous)
         || batch.end + 1 >= TWO_TO_THE_64
      {
        NoChain(sum, batches, n, chain);
        return Err(Corrupt);
      }
      ExtendImage(batches, n, chain, batch);
      LinkedExtends(sum, chain, batch);
      chain := chain + [batch];
      expected := batch.end + 1;
      previous := Some(batch.checksum);
      ops := ops + batch.ops;
    }
    assert batches[..|batches|] == batches;
    forall other | Chained(sum, other) && Image(other) == batches ensures other == chain {
      ImageInjective(other, chain);
    }
    r := Ok((ops, previous));
  }

  lemma ExtendImage(batches: seq<Ranged>, n: nat, chain: seq<StoredBatch>, batch: StoredBatch)
    requires n < |batches| && Image(chain) == batches[..n]
    requires batches[n] == ((batch.start as nat, batch.end as nat), Some(batch))
    ensures Image(chain + [batch]) == batches[..n + 1]
  {
    assert Image(chain + [batch]) == Image(chain) + [batches[n]];
  }

  lemma ImageInjective(a: seq<StoredBatch>, b: seq<StoredBatch>)
    requires Image(a) == Image(b)
    ensures a == b
  {
    assert |a| == |Image(a)| == |b|;
    forall i | 0 <= i < |a| ensures a[i] == b[i] {
      assert Image(a)[i].1 == Some(a[i]) && Image(b)[i].1 == Some(b[i]);
    }
  }

  /** A batch that fails validation at its place fits no chain. */
  lemma NoChain(sum: Checksum, batches: seq<Ranged>, n: nat, prefix: seq<StoredBatch>)
    requires n < |batches| && Image(prefix) == batches[..n]
    requires || batches[n].1.None?
             || !ValidBatch(sum, batches[n].1.value, batches[n].0.0, batches[n].0.1, NextSequence(prefix), Head(prefix))
             || batches[n].1.value.end + 1 >= TWO_TO_THE_64
    ensures forall chain :: Chained(sum, chain) ==> Image(chain) != batches
  {
    forall chain | Chained(sum, chain) && Image(chain) == batches ensures false {
      assert Image(chain)[n] == batches[n];
      LinkedPrefix(sum, chain, n + 1);
      EndInRange(sum, chain, n);
      var upTo := chain[..n + 1];
      assert upTo[..n] == chain[..n] && upTo[n] == chain[n];
      assert Image(chain[..n]) == batches[..n];
      ImageInjective(chain[..n], prefix);
    }
  }

  lemma {:induction false} LinkedPrefix(sum: Checksum, chain: seq<StoredBatch>, n: nat)
    requires Linked(sum, chain) && n <= |chain|
    ensures Linked(sum, chain[..n])
  {
    if n < |chain| {
      LinkedPrefix(sum, chain[..|chain| - 1], n);
      assert chain[..|chain| - 1][..n] == chain[..n];
    } else {
      assert chain[..n] == chain;
    }
  }

  /** A later batch starts after an earlier one, so only the last end can overflow. */
  lemma EndInRange(sum: Checksum, chain: seq<StoredBatch>, i: nat)
    requires Chained(sum, chain) && i < |chain|
    ensures chain[i].end + 1 < TWO_TO_THE_64
  {
    ChainIncreases(sum, chain);
  }

  /** Two directories that load with one head checksum hold the same batches,
      or two of their batches exhibit a digest collision. */
  lemma SameHeadSameBatches(hash: Bytes -> Digest, f: map<string, BatchFile>, a: seq<StoredBatch>,
                            g: map<string, BatchFile>, b: seq<StoredBatch>)
    requires Stores(f, a) && Chained(BatchChecksum(hash), a)
    requires Stores(g, b) && Chained(BatchChecksum(hash), b)
    requires Head(a) == Head(b)
    ensures || BatchesCollide(hash, a, b)
            || (a == b && forall name :: ParseBatchName(name).Some? ==>
                  (name in f <==> name in g) && (name in f ==> f[name].data == g[name].data))
  {
    HeadBindsChain(hash, a, b);
    if a == b {
      forall name | ParseBatchName(name).Some?
        ensures (name in f <==> name in g) && (name in f ==> f[name].data == g[name].data)
      {
        if IsTempName(name) {
          TempNamesAreNotBatches(name);
        }
      }
    }
  }

  // ---------- appending ----------

  datatype JournalMutation =
    | WriteMutation(path: Buffer, before: Option<Digest>, after: Digest)
    | DeleteMutation(path: Buffer, destroyed: Digest)

  function OpFor(sequence: Word64, m: JournalMutation): JournalOp {
    match m
    case WriteMutation(path, before, after) => JournalOp(sequence, path, Write, before, Some(after))
    case DeleteMutation(path, destroyed) => JournalOp(sequence, path, Delete, Some(destroyed), None)
  }

  function OpsFor(start: nat, mutations: seq<JournalMutation>): (ops: seq<JournalOp>)
    requires start + |mutations| <= TWO_TO_THE_64
    ensures |ops| == |mutations|
  {
    seq(|mutations|, i requires 0 <= i < |mutations| => OpFor(start + i, mutations[i]))
  }

  /** Admitted paths and a last sequence number that fits 64 bits. */
  predicate Appendable(chain: seq<StoredBatch>, mutations: seq<JournalMutation>) {
    && mutations != []
    && (forall i :: 0 <= i < |mutations| ==> PathAdmitted(mutations[i].path))
    && NextSequence(chain) + |mutations| <= TWO_TO_THE_64
  }

  function BatchFor(sum: Checksum, chain: seq<StoredBatch>, mutations: seq<JournalMutation>): StoredBatch
    requires Appendable(chain, mutations)
  {
    var start := NextSequence(chain);
    NewBatch(sum, start, start + |mutations| - 1, Head(chain), OpsFor(start, mutations))
  }

  /** An appended batch extends the chain; the longer chain reloads exactly
      when its end is not the largest 64-bit number. */
  lemma AppendExtends(sum: Checksum, chain: seq<StoredBatch>, mutations: seq<JournalMutation>)
    requires Linked(sum, chain) && Appendable(chain, mutations)
    ensures var longer := chain + [BatchFor(sum, chain, mutations)];
      && Linked(sum, longer)
      && ChainOps(longer) == ChainOps(chain) + OpsFor(NextSequence(chain), mutations)
      && (Chained(sum, longer) <==> NextSequence(chain) + |mutations| < TWO_TO_THE_64)
  {
    BatchForValid(sum, chain, mutations);
    LinkedExtends(sum, chain, BatchFor(sum, chain, mutations));
  }

  /** The input at which an append is accepted and does not reload: one batch of 2^64 - 1 writes. */
  lemma LongestAppendDoesNotReload(sum: Checksum, files: map<string, BatchFile>)
    ensures var digest: Digest := seq(32, i => 0);
      var mutations := seq(TWO_TO_THE_64 - 1, i => WriteMutation([1], None, digest));
      && Appendable([], mutations) && Linked(sum, [BatchFor(sum, [], mutations)])
      && (Stores(files, [BatchFor(sum, [], mutations)]) ==> !exists c :: Stores(files, c) && Chained(sum, c))
  {
    var digest: Digest := seq(32, i => 0);
    var mutations := seq(TWO_TO_THE_64 - 1, i => WriteMutation([1], None, digest));
    AppendExtends(sum, [], mutations);
    var chain := [BatchFor(sum, [], mutations)];
    assert [] + chain == chain;
    if Stores(files, chain) {
      FullJournalDoesNotLoad(sum, files, chain);
    }
  }

  lemma BatchForValid(sum: Checksum, chain: seq<StoredBatch>, mutations: seq<JournalMutation>)
    requires Appendable(chain, mutations)
    ensures var batch := BatchFor(sum, chain, mutations);
      ValidBatch(sum, batch, batch.start, batch.end, NextSequence(chain), Head(chain))
  {
    var batch := BatchFor(sum, chain, mutations);
    forall i | 0 <= i < |batch.ops| ensures ValidOp(batch.ops[i], batch.start + i) {
      assert PathAdmitted(mutations[i].path);
    }
  }

  /** A batch name that no batch of a linked chain uses. */
  lemma NextNameIsNew(sum: Checksum, chain: seq<StoredBatch>, batch: StoredBatch)
    requires Linked(sum, chain) && batch.start == NextSequence(chain)
    ensures forall i :: 0 <= i < |chain| ==> FileName(chain[i]) != FileName(batch)
    ensures !IsTempName(FileName(batch))
  {
    ChainIncreases(sum, chain);
    forall i | 0 <= i < |chain| ensures FileName(chain[i]) != FileName(batch) {
      BatchNameExact(FileName(batch), batch.start, batch.end);
      BatchNameExact(FileName(batch), chain[i].start, chain[i].end);
    }
    BatchNameExact(FileName(batch), batch.start, batch.end);
    if IsTempName(FileName(batch)) {
      TempNamesAreNotBatches(FileName(batch));
    }
  }

  function BatchItem(batch: StoredBatch): BatchFile {
    Item(Regular, Some(batch), true)
  }

  ghost predicate NamesOneOf(chain: seq<StoredBatch>, name: string) {
    exists i :: 0 <= i < |chain| && name == FileName(chain[i])
  }

  // ---------- what a directory is sure to hold ----------

  /** An entry that belongs: staging, or a batch of the chain under its own name. */
  ghost predicate Explained(chain: seq<StoredBatch>, name: string, item: BatchFile) {
    item.kind == Regular
      && (IsTempName(name) || exists i :: 0 <= i < |chain| && name == FileName(chain[i]) && item == BatchItem(chain[i]))
  }

  /** The first `sure` batches of `chain` are durable; each later one is visible but may be lost
      in a crash, or is gone; nothing else but staging is or can come back. */
  ghost predicate Backed(d: Directory<Content>, chain: seq<StoredBatch>, sure: nat) {
    && sure <= |chain| && Coherent(d)
    && (forall i :: 0 <= i < sure ==> Settled(d, FileName(chain[i]), BatchItem(chain[i])))
    && (forall i :: sure <= i < |chain| && Now(d, FileName(chain[i])).None? ==>
          Candidates(d, FileName(chain[i])) == {None})
    && (forall name, v :: v in Candidates(d, name) && v.Some? ==> Explained(chain, name, v.value))
  }

  /** Whatever a crash leaves, the directory still stores `chain`. */
  ghost predicate DurablyStores(d: Directory<Content>, chain: seq<StoredBatch>) {
    Backed(d, chain, |chain|)
  }

  lemma VisibleIsExplained(d: Directory<Content>, chain: seq<StoredBatch>, sure: nat)
    requires Backed(d, chain, sure)
    ensures forall name :: name in Visible(d) ==> Explained(chain, name, Visible(d)[name])
  {
    forall name | name in Visible(d) ensures Explained(chain, name, Visible(d)[name]) {
      assert Now(d, name) in Candidates(d, name);
    }
  }

  /** A crash keeps what is sure and brings nothing new. */
  lemma BackedCrash(d: Directory<Content>, crashed: Directory<Content>, chain: seq<StoredBatch>, sure: nat)
    requires Backed(d, chain, sure) && CrashImage(d, crashed)
    ensures Backed(crashed, chain, sure)
    ensures forall name :: Candidates(crashed, name) == {Now(crashed, name)}
  {
    CrashCoherent(d, crashed);
    forall i | 0 <= i < sure ensures Settled(crashed, FileName(chain[i]), BatchItem(chain[i])) {
      SettledSurvives(d, crashed, FileName(chain[i]), BatchItem(chain[i]));
    }
    forall name ensures Candidates(crashed, name) == {Now(crashed, name)} {
      assert SlotSurvives(d, crashed, name);
    }
    forall name, v | v in Candidates(crashed, name) && v.Some? ensures Explained(chain, name, v.value) {
      assert SlotSurvives(d, crashed, name);
      var c :| c in Candidates(d, name) && Survives(c, Now(crashed, name));
      assert Explained(chain, name, c.value);
    }
  }

  // ---------- which chain a directory stores ----------

  /** A linked chain made of another's batches is a prefix of it. */
  lemma {:induction false} MembersArePrefix(sum: Checksum, a: seq<StoredBatch>, b: seq<StoredBatch>)
    requires Linked(sum, a) && Linked(sum, b) && forall x :: x in a ==> x in b
    ensures a <= b
  {
    if a != [] {
      var n := |a| - 1;
      var front, last := a[..n], a[n];
      assert forall x :: x in front ==> x in a;
      MembersArePrefix(sum, front, b);
      assert last in a;
      LastSpan(sum, a);
      NextIsNextMember(sum, front, last, b);
      assert a == front + [last];
    }
  }

  lemma NextIsNextMember(sum: Checksum, front: seq<StoredBatch>, last: StoredBatch, b: seq<StoredBatch>)
    requires Linked(sum, b) && front <= b && last in b && last.start == NextSequence(front)
    ensures front + [last] <= b
  {
    var k :| 0 <= k < |b| && b[k] == last;
    assert b[..|front|] == front;
    StartDeterminesPlace(sum, b, |front|, k);
  }

  lemma StartDeterminesPlace(sum: Checksum, b: seq<StoredBatch>, n: nat, k: nat)
    requires Linked(sum, b) && n <= |b| && k < |b| && b[k].start == NextSequence(b[..n])
    ensures n == k
  {
    ChainIncreases(sum, b);
    assert b[..|b|] == b;
    if n < |b| {
      StartAt(sum, b, n);
    }
  }

  lemma StartAt(sum: Checksum, b: seq<StoredBatch>, n: nat)
    requires Linked(sum, b) && n < |b|
    ensures b[n].start == NextSequence(b[..n])
  {
    LinkedPrefix(sum, b, n + 1);
    LastSpan(sum, b[..n + 1]);
    assert b[..n + 1][..n] == b[..n];
  }

  /** A directory stores at most one linked chain. */
  lemma StoredChainIsUnique(sum: Checksum, files: map<string, BatchFile>, a: seq<StoredBatch>, b: seq<StoredBatch>)
    requires Stores(files, a) && Stores(files, b) && Linked(sum, a) && Linked(sum, b)
    ensures a == b
  {
    StoredMembers(files, a, b);
    StoredMembers(files, b, a);
    MembersArePrefix(sum, a, b);
    MembersArePrefix(sum, b, a);
  }

  lemma StoredMembers(files: map<string, BatchFile>, a: seq<StoredBatch>, b: seq<StoredBatch>)
    requires Stores(files, a) && Stores(files, b)
    ensures forall x :: x in a ==> x in b
  {
    forall x | x in a ensures x in b {
      var i :| 0 <= i < |a| && a[i] == x;
      BatchIsNoTemp(x);
      var k :| 0 <= k < |b| && FileName(x) == FileName(b[k]);
      assert files[FileName(x)].data == Some(b[k]);
    }
  }

  lemma BatchIsNoTemp(batch: StoredBatch)
    ensures !IsTempName(FileName(batch))
  {
    BatchNameExact(FileName(batch), batch.start, batch.end);
    if IsTempName(FileName(batch)) {
      TempNamesAreNotBatches(FileName(batch));
    }
  }

  /** A stored linked chain that ends at the largest 64-bit number is refused, because no other
      chain is stored. */
  lemma FullJournalDoesNotLoad(sum: Checksum, files: map<string, BatchFile>, chain: seq<StoredBatch>)
    requires Stores(files, chain) && Linked(sum, chain)
    ensures (exists c :: Stores(files, c) && Chained(sum, c)) <==> NextSequence(chain) < TWO_TO_THE_64
  {
    forall c | Stores(files, c) && Chained(sum, c) ensures c == chain {
      StoredChainIsUnique(sum, files, c, chain);
    }
  }

  /** Whatever linked chain a backed directory stores begins with every batch that is sure. */
  lemma StoredIsBacked(sum: Checksum, d: Directory<Content>, chain: seq<StoredBatch>, sure: nat,
                       stored: seq<StoredBatch>)
    requires Linked(sum, chain) && Backed(d, chain, sure) && Linked(sum, stored) && Stores(Visible(d), stored)
    ensures chain[..sure] <= stored <= chain && Backed(d, stored, sure)
  {
    VisibleIsExplained(d, chain, sure);
    forall x | x in stored ensures x in chain {
      var i :| 0 <= i < |stored| && stored[i] == x;
      BatchIsNoTemp(x);
      assert Explained(chain, FileName(x), Visible(d)[FileName(x)]);
    }
    MembersArePrefix(sum, stored, chain);
    forall x | x in chain[..sure] ensures x in stored {
      var i :| 0 <= i < sure && chain[i] == x;
      assert Settled(d, FileName(x), BatchItem(x)) && FileName(x) in Visible(d);
      BatchIsNoTemp(x);
      var k :| 0 <= k < |stored| && FileName(x) == FileName(stored[k]);
      assert Visible(d)[FileName(x)].data == Some(stored[k]);
    }
    LinkedPrefix(sum, chain, sure);
    MembersArePrefix(sum, chain[..sure], stored);
    StoredExplains(sum, d, chain, sure, stored);
  }

  lemma StoredExplains(sum: Checksum, d: Directory<Content>, chain: seq<StoredBatch>, sure: nat,
                       stored: seq<StoredBatch>)
    requires Linked(sum, chain) && Backed(d, chain, sure) && Stores(Visible(d), stored) && stored <= chain
      && sure <= |stored|
    ensures Backed(d, stored, sure)
  {
    forall name, v | v in Candidates(d, name) && v.Some? ensures Explained(stored, name, v.value) {
      if !IsTempName(name) {
        assert Explained(chain, name, v.value);
        var i :| 0 <= i < |chain| && name == FileName(chain[i]) && v.value == BatchItem(chain[i]);
        CandidateIsVisible(d, chain, sure, i);
        var k :| 0 <= k < |stored| && name == FileName(stored[k]);
        SameNameSamePlace(sum, chain, i, k);
      }
    }
  }

  lemma CandidateIsVisible(d: Directory<Content>, chain: seq<StoredBatch>, sure: nat, i: nat)
    requires Backed(d, chain, sure) && i < |chain| && Some(BatchItem(chain[i])) in Candidates(d, FileName(chain[i]))
    ensures FileName(chain[i]) in Visible(d)
  {
    assert i < sure ==> Settled(d, FileName(chain[i]), BatchItem(chain[i]));
  }

  lemma SameNameSamePlace(sum: Checksum, chain: seq<StoredBatch>, i: nat, k: nat)
    requires Linked(sum, chain) && i < |chain| && k < |chain| && FileName(chain[i]) == FileName(chain[k])
    ensures i == k
  {
    BatchNameExact(FileName(chain[i]), chain[i].start, chain[i].end);
    BatchNameExact(FileName(chain[i]), chain[k].start, chain[k].end);
    ChainIncreases(sum, chain);
  }
}
