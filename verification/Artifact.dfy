/** The recursive digest of a directory tree, and why it binds the whole tree.

  Entries are hashed in name order, each as its framed path from the root, a framed tag
  and what the tag calls for; file contents follow their framed length unframed.
  Directories have no closing mark: their extent follows from the paths.
*/
module Artifact {
  import opened Framing
  import opened Text

  const ARTIFACT_DOMAIN: Bytes := Ascii("bullet-git-preservation-artifact-v1")
  const FILE_TAG: Bytes := Ascii("file")
  const DIRECTORY_TAG: Bytes := Ascii("directory")
  const SYMLINK_TAG: Bytes := Ascii("symlink")
  const SLASH: Byte := 47

  datatype Kind =
    | Directory(mode: nat)
    | Regular(mode: nat, bytes: Bytes)
    | Symlink(target: Bytes)

  /** A directory's entries in name order: the first, what lies below it, and the others. */
  datatype Forest = Empty | Entry(name: Bytes, kind: Kind, below: Forest, others: Forest)

  predicate HasName(f: Forest, name: Bytes) {
    f.Entry? && (f.name == name || HasName(f.others, name))
  }

  predicate ValidKind(k: Kind) {
    match k
    case Directory(mode) => mode < 4096
    case Regular(mode, bytes) => mode < 4096 && |bytes| < TWO_TO_THE_64
    case Symlink(target) => |target| < TWO_TO_THE_64
  }

  /** Names are non-empty, slash-free and distinct in each directory, and only directories hold entries. */
  predicate ValidForest(f: Forest) {
    match f
    case Empty => true
    case Entry(name, kind, below, others) =>
      && name != [] && SLASH !in name && ValidKind(kind) && !HasName(others, name)
      && (!kind.Directory? ==> below.Empty?) && ValidForest(below) && ValidForest(others)
  }

  type Trail = seq<Bytes>

  datatype Record = Record(trail: Trail, kind: Kind)

  /** The records in the order they are hashed. */
  function Flatten(prefix: Trail, f: Forest): seq<Record>
    decreases f
  {
    match f
    case Empty => []
    case Entry(name, kind, below, others) =>
      [Record(prefix + [name], kind)] + Flatten(prefix + [name], below) + Flatten(prefix, others)
  }

  // ---------- the flat record list determines the tree ----------

  predicate Under(prefix: Trail, r: Record) {
    prefix < r.trail
  }

  predicate AllUnder(prefix: Trail, records: seq<Record>) {
    forall r :: r in records ==> Under(prefix, r)
  }

  predicate NoneUnder(prefix: Trail, records: seq<Record>) {
    forall r :: r in records ==> !Under(prefix, r)
  }

  lemma {:induction false} FlattenIsUnder(prefix: Trail, f: Forest)
    ensures AllUnder(prefix, Flatten(prefix, f))
    decreases f
  {
    if f.Entry? {
      FlattenIsUnder(prefix + [f.name], f.below);
      FlattenIsUnder(prefix, f.others);
      forall r | r in Flatten(prefix + [f.name], f.below) ensures Under(prefix, r) {
        assert Under(prefix + [f.name], r);
      }
    }
  }

  lemma {:induction false} OthersAreElsewhere(prefix: Trail, name: Bytes, f: Forest)
    requires !HasName(f, name)
    ensures NoneUnder(prefix + [name], Flatten(prefix, f))
  {
    if f.Entry? {
      OthersAreElsewhere(prefix, name, f.others);
      FlattenIsUnder(prefix + [f.name], f.below);
      var n := |prefix|;
      forall r | r in Flatten(prefix, f) ensures !Under(prefix + [name], r) {
        if r in Flatten(prefix + [f.name], f.below) {
          assert Under(prefix + [f.name], r) && r.trail[n] == f.name;
        }
        assert (prefix + [name])[n] == name;
      }
    }
  }

  lemma SplitPoint(prefix: Trail, a: seq<Record>, b: seq<Record>)
    requires AllUnder(prefix, a) && NoneUnder(prefix, b)
    ensures forall i :: 0 <= i < |a + b| ==> (Under(prefix, (a + b)[i]) <==> i < |a|)
  {
    forall i | 0 <= i < |a + b| ensures Under(prefix, (a + b)[i]) <==> i < |a| {
      if i < |a| {
        assert (a + b)[i] == a[i] && a[i] in a;
      } else {
        assert (a + b)[i] == b[i - |a|] && b[i - |a|] in b;
      }
    }
  }

  /** Two lists split at the same place when one part is under a prefix and the other is not. */
  lemma SplitAgrees(prefix: Trail, a: seq<Record>, b: seq<Record>, c: seq<Record>, d: seq<Record>)
    requires a + b == c + d && AllUnder(prefix, a) && AllUnder(prefix, c) && NoneUnder(prefix, b)
      && NoneUnder(prefix, d)
    ensures a == c && b == d
  {
    var whole := a + b;
    SplitPoint(prefix, a, b);
    SplitPoint(prefix, c, d);
    SameLength(prefix, whole, |a|, |c|);
    assert a == whole[..|a|] && c == whole[..|c|] && b == whole[|a|..] && d == whole[|c|..];
  }

  lemma SameLength(prefix: Trail, whole: seq<Record>, m: nat, n: nat)
    requires m <= |whole| && n <= |whole|
    requires forall i :: 0 <= i < |whole| ==> (Under(prefix, whole[i]) <==> i < m)
    requires forall i :: 0 <= i < |whole| ==> (Under(prefix, whole[i]) <==> i < n)
    ensures m == n
  {
    var least := if m < n then m else n;
    assert least == |whole| || (Under(prefix, whole[least]) <==> least < m);
  }

  /** The records of a tree determine it. */
  lemma {:induction false} FlattenInjective(prefix: Trail, f: Forest, g: Forest)
    requires ValidForest(f) && ValidForest(g) && Flatten(prefix, f) == Flatten(prefix, g)
    ensures f == g
    decreases f
  {
    if f.Entry? && g.Entry? {
      var x, y := Flatten(prefix, f), Flatten(prefix, g);
      assert x[0] == Record(prefix + [f.name], f.kind) && y[0] == Record(prefix + [g.name], g.kind);
      assert (prefix + [f.name])[|prefix|] == (prefix + [g.name])[|prefix|];
      var here := prefix + [f.name];
      var a, b, c, d := Flatten(here, f.below), Flatten(prefix, f.others), Flatten(here, g.below),
        Flatten(prefix, g.others);
      assert x[1..] == a + b && y[1..] == c + d;
      FlattenIsUnder(here, f.below);
      FlattenIsUnder(here, g.below);
      OthersAreElsewhere(prefix, f.name, f.others);
      OthersAreElsewhere(prefix, g.name, g.others);
      SplitAgrees(here, a, b, c, d);
      FlattenInjective(here, f.below, g.below);
      FlattenInjective(prefix, f.others, g.others);
    }
  }

  // ---------- the byte stream determines the records ----------

  function ModeField(mode: nat): (bytes: Bytes)
    ensures |bytes| == 4
  {
    LittleEndian(mode, 4)
  }

  function KindBytes(k: Kind): Bytes {
    match k
    case Directory(mode) => Frame(DIRECTORY_TAG) + Frame(ModeField(mode))
    case Regular(mode, bytes) => Frame(FILE_TAG) + Frame(ModeField(mode)) + Frame(U64(|bytes|)) + bytes
    case Symlink(target) => Frame(SYMLINK_TAG) + Frame(target)
  }

  function RecordBytes(r: Record): Bytes {
    if r.trail == [] then [] else Frame(Join(r.trail, SLASH)) + KindBytes(r.kind)
  }

  /** A record of a path shorter than 2^64 bytes with slash-free segments. */
  predicate ValidRecord(r: Record) {
    && r.trail != [] && (forall i :: 0 <= i < |r.trail| ==> SLASH !in r.trail[i])
    && |Join(r.trail, SLASH)| < TWO_TO_THE_64 && ValidKind(r.kind)
  }

  predicate ValidRecords(records: seq<Record>) {
    forall r :: r in records ==> ValidRecord(r)
  }

  type Encoding = Record -> Bytes

  /** The bytes of records one after another, in a given encoding. */
  function Stream(encode: Encoding, records: seq<Record>): Bytes {
    if records == [] then [] else encode(records[0]) + Stream(encode, records[1..])
  }

  lemma HeadsCancel(p: Bytes, f: Bytes, x: Bytes, q: Bytes, g: Bytes, y: Bytes)
    requires |p| == |q| && (p + f) + x == (q + g) + y
    ensures p == q && f + x == g + y
  {
    var left, right := (p + f) + x, (q + g) + y;
    assert left[..|p|] == p && right[..|q|] == q && left[|p|..] == f + x && right[|q|..] == g + y;
  }

  lemma PartsCancel(f: Bytes, x: Bytes, g: Bytes, y: Bytes)
    requires |f| == |g| && f + x == g + y
    ensures f == g && x == y
  {
    assert (f + x)[..|f|] == f && (g + y)[..|g|] == g && (f + x)[|f|..] == x && (g + y)[|g|..] == y;
  }

  lemma FrameIs(f: Bytes)
    requires |f| < TWO_TO_THE_64
    ensures Frame(f) == U64(|f|) + f
  {
  }

  /** A framed field at the head of a buffer can be read off. */
  lemma FrameCancels(f: Bytes, x: Bytes, g: Bytes, y: Bytes)
    requires |f| < TWO_TO_THE_64 && |g| < TWO_TO_THE_64 && Frame(f) + x == Frame(g) + y
    ensures f == g && x == y
  {
    FrameIs(f);
    FrameIs(g);
    HeadsCancel(U64(|f|), f, x, U64(|g|), g, y);
    U64Injective(|f|, |g|);
    PartsCancel(f, x, g, y);
  }

  lemma ModeInjective(a: nat, b: nat)
    requires a < 4096 && b < 4096 && ModeField(a) == ModeField(b)
    ensures a == b
  {
    assert Power256(4) == 256 * (256 * Power256(2)) && Power256(2) == 65536;
    LittleEndianRoundTrip(a, 4);
    LittleEndianRoundTrip(b, 4);
  }

  lemma TagsDiffer()
    ensures FILE_TAG != DIRECTORY_TAG && FILE_TAG != SYMLINK_TAG && DIRECTORY_TAG != SYMLINK_TAG
  {
    assert |FILE_TAG| == 4 && |DIRECTORY_TAG| == 9 && |SYMLINK_TAG| == 7;
  }

  function TagOf(k: Kind): (tag: Bytes)
    ensures |tag| < TWO_TO_THE_64
  {
    match k case Directory(_) => DIRECTORY_TAG case Regular(_, _) => FILE_TAG case Symlink(_) => SYMLINK_TAG
  }

  function AfterTag(k: Kind): Bytes {
    match k
    case Directory(mode) => Frame(ModeField(mode))
    case Regular(mode, bytes) => Frame(ModeField(mode)) + Frame(U64(|bytes|)) + bytes
    case Symlink(target) => Frame(target)
  }

  lemma KindSplits(k: Kind, rest: Bytes)
    ensures KindBytes(k) + rest == Frame(TagOf(k)) + (AfterTag(k) + rest)
  {
  }

  lemma Regroup(a: Bytes, b: Bytes, c: Bytes, x: Bytes)
    ensures (a + b + c) + x == a + (b + (c + x))
  {
  }

  lemma RegularCancels(a: Kind, x: Bytes, b: Kind, y: Bytes)
    requires a.Regular? && b.Regular? && ValidKind(a) && ValidKind(b) && AfterTag(a) + x == AfterTag(b) + y
    ensures a == b && x == y
  {
    var m, n, k, l := ModeField(a.mode), ModeField(b.mode), U64(|a.bytes|), U64(|b.bytes|);
    Regroup(Frame(m), Frame(k), a.bytes, x);
    Regroup(Frame(n), Frame(l), b.bytes, y);
    FrameCancels(m, Frame(k) + (a.bytes + x), n, Frame(l) + (b.bytes + y));
    FrameCancels(k, a.bytes + x, l, b.bytes + y);
    ModeInjective(a.mode, b.mode);
    U64Injective(|a.bytes|, |b.bytes|);
    PartsCancel(a.bytes, x, b.bytes, y);
  }

  lemma KindCancels(a: Kind, x: Bytes, b: Kind, y: Bytes)
    requires ValidKind(a) && ValidKind(b) && KindBytes(a) + x == KindBytes(b) + y
    ensures a == b && x == y
  {
    KindSplits(a, x);
    KindSplits(b, y);
    FrameCancels(TagOf(a), AfterTag(a) + x, TagOf(b), AfterTag(b) + y);
    TagsDiffer();
    match a
    case Directory(mode) =>
      FrameCancels(ModeField(mode), x, ModeField(b.mode), y);
      ModeInjective(mode, b.mode);
    case Symlink(target) => FrameCancels(target, x, b.target, y);
    case Regular(_, _) => RegularCancels(a, x, b, y);
  }

  lemma TrailsCancel(a: Trail, b: Trail)
    requires a != [] && b != [] && Join(a, SLASH) == Join(b, SLASH)
    requires (forall i :: 0 <= i < |a| ==> SLASH !in a[i]) && (forall i :: 0 <= i < |b| ==> SLASH !in b[i])
    ensures a == b
  {
    SplitJoin(a, SLASH);
    SplitJoin(b, SLASH);
  }

  lemma Associates(a: Bytes, b: Bytes, c: Bytes)
    ensures (a + b) + c == a + (b + c)
  {
  }

  lemma NamedKindCancels(f: Bytes, a: Kind, x: Bytes, g: Bytes, b: Kind, y: Bytes)
    requires |f| < TWO_TO_THE_64 && |g| < TWO_TO_THE_64 && ValidKind(a) && ValidKind(b)
    requires (Frame(f) + KindBytes(a)) + x == (Frame(g) + KindBytes(b)) + y
    ensures f == g && a == b && x == y
  {
    Associates(Frame(f), KindBytes(a), x);
    Associates(Frame(g), KindBytes(b), y);
    FrameCancels(f, KindBytes(a) + x, g, KindBytes(b) + y);
    KindCancels(a, x, b, y);
  }

  lemma RecordCancels(a: Record, x: Bytes, b: Record, y: Bytes)
    requires ValidRecord(a) && ValidRecord(b) && RecordBytes(a) + x == RecordBytes(b) + y
    ensures a == b && x == y
  {
    NamedKindCancels(Join(a.trail, SLASH), a.kind, x, Join(b.trail, SLASH), b.kind, y);
    TrailsCancel(a.trail, b.trail);
  }

  /** No valid record's bytes begin another's, and none is empty. */
  ghost predicate SelfDelimiting(encode: Encoding) {
    && (forall r :: ValidRecord(r) ==> encode(r) != [])
    && (forall a, x, b, y :: ValidRecord(a) && ValidRecord(b) && encode(a) + x == encode(b) + y ==> a == b && x == y)
  }

  lemma RecordsAreSelfDelimiting()
    ensures SelfDelimiting(RecordBytes)
  {
    forall a, x, b, y | ValidRecord(a) && ValidRecord(b) && RecordBytes(a) + x == RecordBytes(b) + y
      ensures a == b && x == y
    {
      RecordCancels(a, x, b, y);
    }
    forall r | ValidRecord(r) ensures RecordBytes(r) != [] {
      assert |Frame(Join(r.trail, SLASH))| >= 8;
    }
  }

  /** A stream of self-delimiting records determines them. */
  lemma {:induction false} StreamInjective(encode: Encoding, a: seq<Record>, b: seq<Record>)
    requires SelfDelimiting(encode) && ValidRecords(a) && ValidRecords(b) && Stream(encode, a) == Stream(encode, b)
    ensures a == b
  {
    assert a != [] ==> ValidRecord(a[0]);
    assert b != [] ==> ValidRecord(b[0]);
    if a != [] && b != [] {
      StreamInjective(encode, a[1..], b[1..]);
      assert a == [a[0]] + a[1..] && b == [b[0]] + b[1..];
    }
  }

  // ---------- the digest ----------

  predicate Hashable(f: Forest) {
    ValidForest(f) && ValidRecords(Flatten([], f))
  }

  function ArtifactPreimage(f: Forest): Bytes {
    Frame(ARTIFACT_DOMAIN) + Stream(RecordBytes, Flatten([], f))
  }

  function HashArtifact(hash: Bytes -> Digest, f: Forest): Digest {
    hash(ArtifactPreimage(f))
  }

  /** The artifact digest binds every entry: names, kinds, modes, contents and link targets of
      the whole tree, or two streams with one digest are exhibited. */
  lemma ArtifactDigestBinds(hash: Bytes -> Digest, f: Forest, g: Forest)
    requires Hashable(f) && Hashable(g) && HashArtifact(hash, f) == HashArtifact(hash, g)
    ensures f == g || Collide(hash, ArtifactPreimage(f), ArtifactPreimage(g))
  {
    if ArtifactPreimage(f) == ArtifactPreimage(g) {
      FrameCancels(ARTIFACT_DOMAIN, Stream(RecordBytes, Flatten([], f)), ARTIFACT_DOMAIN,
        Stream(RecordBytes, Flatten([], g)));
      RecordsAreSelfDelimiting();
      StreamInjective(RecordBytes, Flatten([], f), Flatten([], g));
      FlattenInjective([], f, g);
    }
  }

  /** The walk that feeds the hasher: each entry's bytes, then what lies below it, then the rest. */
  method HashEntries(encode: Encoding, prefix: Trail, f: Forest, fed: Bytes) returns (buffer: Bytes)
    ensures buffer == fed + Stream(encode, Flatten(prefix, f))
    decreases f
  {
    buffer := fed;
    var rest := f;
    while rest.Entry?
      invariant buffer + Stream(encode, Flatten(prefix, rest)) == fed + Stream(encode, Flatten(prefix, f))
      invariant rest == f || rest < f
      decreases rest
    {
      var here := prefix + [rest.name];
      WalkStep(encode, prefix, rest, buffer);
      buffer := buffer + encode(Record(here, rest.kind));
      buffer := HashEntries(encode, here, rest.below, buffer);
      rest := rest.others;
    }
  }

  lemma WalkStep(encode: Encoding, prefix: Trail, f: Forest, fed: Bytes)
    requires f.Entry?
    ensures var here := prefix + [f.name];
      fed + Stream(encode, Flatten(prefix, f)) ==
        ((fed + encode(Record(here, f.kind))) + Stream(encode, Flatten(here, f.below))) + Stream(encode,
          Flatten(prefix, f.others))
  {
    var here := prefix + [f.name];
    StreamStep(encode, Record(here, f.kind), Flatten(here, f.below), Flatten(prefix, f.others), fed);
  }

  lemma StreamStep(encode: Encoding, r: Record, below: seq<Record>, others: seq<Record>, fed: Bytes)
    ensures fed + Stream(encode, [r] + below + others) ==
      ((fed + encode(r)) + Stream(encode, below)) + Stream(encode, others)
  {
    var all := [r] + below + others;
    assert all[0] == r && all[1..] == below + others;
    StreamAppend(encode, below, others);
  }

  lemma {:induction false} StreamAppend(encode: Encoding, a: seq<Record>, b: seq<Record>)
    ensures Stream(encode, a + b) == Stream(encode, a) + Stream(encode, b)
  {
    if a == [] {
      assert a + b == b;
    } else {
      StreamAppend(encode, a[1..], b);
      assert (a + b)[1..] == a[1..] + b && (a + b)[0] == a[0];
    }
  }
}
