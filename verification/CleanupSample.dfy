/** A preservation and a cleanup that can happen, carried out over a JSON codec.

  It shows that the theorems about cleanup speak of codecs, trees and tokens that exist, and
  it gives the receipt that is issued but too long to be opened.
*/
module CleanupSample {
  import opened Framing
  import opened Names
  import opened Journal
  import opened Artifact
  import opened Json
  import JS = JournalStore
  import C = Cas
  import opened Preservation
  import opened Cleanup

  // ---------- the codec ----------

  /** One JSON string after another. */
  function Spelled(fields: seq<Bytes>): (text: Bytes)
    ensures |text| >= |fields|
  {
    if fields == [] then [] else Quoted(fields[0]) + Spelled(fields[1..])
  }

  lemma {:induction false} SpelledInjective(a: seq<Bytes>, b: seq<Bytes>)
    requires |a| == |b| && Spelled(a) == Spelled(b)
    ensures a == b
  {
    if a != [] {
      QuotedCancels(a[0], Spelled(a[1..]), b[0], Spelled(b[1..]));
      SpelledInjective(a[1..], b[1..]);
      assert a == [a[0]] + a[1..] && b == [b[0]] + b[1..];
    }
  }

  function Number(n: nat): Bytes {
    Ascii(Decimal(n))
  }

  lemma NumberInjective(m: nat, n: nat)
    requires Number(m) == Number(n)
    ensures m == n
  {
    DigitsAreAscii(Decimal(m));
    DigitsAreAscii(Decimal(n));
    AsciiInjective(Decimal(m), Decimal(n));
    DecimalParses(m);
    DecimalParses(n);
  }

  function StateParts(s: State): seq<Bytes> {
    [s.attempt, s.nonce, Number(s.generation), s.generationDigest, Number(s.journalEnd), s.journalRoot, s.rest]
  }

  function PayloadParts(p: Payload): seq<Bytes> {
    [PathText(p.destination), PathText(p.target), Number(p.schema), p.stateDigest, p.artifactDigest,
      Number(p.device), Number(p.inode)]
  }

  function SpellState(s: State): Bytes {
    Spelled(StateParts(s))
  }

  function SpellPayload(p: Payload): Bytes {
    Spelled(PayloadParts(p))
  }

  function SpellReceipt(r: Sealed): Bytes {
    Spelled(PayloadParts(r.payload) + [r.tag])
  }

  lemma SpellStateInjective(s: State, t: State)
    requires SpellState(s) == SpellState(t)
    ensures s == t
  {
    var a, b := StateParts(s), StateParts(t);
    SpelledInjective(a, b);
    assert a[0] == b[0] && a[1] == b[1] && a[2] == b[2] && a[3] == b[3] && a[4] == b[4] && a[5] == b[5] && a[6] == b[6];
    NumberInjective(s.generation, t.generation);
    NumberInjective(s.journalEnd, t.journalEnd);
  }

  lemma PayloadPartsInjective(p: Payload, q: Payload)
    requires PayloadParts(p) == PayloadParts(q)
    ensures p == q
  {
    var a, b := PayloadParts(p), PayloadParts(q);
    assert a[0] == b[0] && a[1] == b[1] && a[2] == b[2] && a[3] == b[3] && a[4] == b[4] && a[5] == b[5] && a[6] == b[6];
    PathTextInjective(p.destination, q.destination);
    PathTextInjective(p.target, q.target);
    NumberInjective(p.schema, q.schema);
    NumberInjective(p.device, q.device);
    NumberInjective(p.inode, q.inode);
  }

  lemma SpellReceiptInjective(r: Sealed, t: Sealed)
    requires SpellReceipt(r) == SpellReceipt(t)
    ensures r == t
  {
    var a, b := PayloadParts(r.payload) + [r.tag], PayloadParts(t.payload) + [t.tag];
    SpelledInjective(a, b);
    assert a[..7] == PayloadParts(r.payload) && b[..7] == PayloadParts(t.payload) && a[7] == r.tag && b[7] == t.tag;
    PayloadPartsInjective(r.payload, t.payload);
  }

  /** What a text was spelled from. */
  ghost function Unspelled<T(!new)>(spell: T -> Bytes, text: Bytes): Option<T> {
    if exists t :: spell(t) == text then
      var t :| spell(t) == text;
      Some(t)
    else None
  }

  /** Any bytes pass for a bundle and none for a batch; the rest is JSON. */
  ghost function JsonCodecs(): Codecs {
    Codecs(_ => None, _ => true, SpellState, text => Unspelled(SpellState, text), SpellPayload, SpellReceipt,
           text => Unspelled(SpellReceipt, text))
  }

  lemma OneMore(count: nat, bound: nat)
    ensures (count + 1) * bound == count * bound + bound
  {
  }

  lemma {:induction false} SpelledLength(fields: seq<Bytes>, bound: nat)
    requires forall i :: 0 <= i < |fields| ==> 6 * |fields[i]| < bound
    ensures |Spelled(fields)| <= |fields| * bound
  {
    if fields != [] {
      var rest := fields[1..];
      SpelledLength(rest, bound);
      assert |Quoted(fields[0])| <= bound;
      OneMore(|rest|, bound);
    }
  }

  lemma UnspelledSpelled<T(!new)>(spell: T -> Bytes, t: T)
    requires forall u :: spell(u) == spell(t) ==> u == t
    ensures Unspelled(spell, spell(t)) == Some(t)
  {
  }

  lemma JsonIsFaithful()
    ensures Faithful(JsonCodecs())
  {
    forall s, t | SpellState(s) == SpellState(t) ensures s == t {
      SpellStateInjective(s, t);
    }
    forall p, q | SpellPayload(p) == SpellPayload(q) ensures p == q {
      SpelledInjective(PayloadParts(p), PayloadParts(q));
      PayloadPartsInjective(p, q);
    }
  }

  lemma JsonReadsStates(s: State)
    ensures JsonCodecs().parseState(SpellState(s)) == Some(s)
  {
    forall t | SpellState(t) == SpellState(s) ensures t == s {
      SpellStateInjective(s, t);
    }
    UnspelledSpelled(SpellState, s);
  }

  lemma JsonReadsReceipt(r: Sealed)
    ensures SpellReceipt(r) != [] && JsonCodecs().parseReceipt(SpellReceipt(r)) == Some(r)
  {
    forall t | SpellReceipt(t) == SpellReceipt(r) ensures t == r {
      SpellReceiptInjective(r, t);
    }
    UnspelledSpelled(SpellReceipt, r);
  }

  lemma JsonReadsReceipts()
    ensures ReadsReceipts(JsonCodecs())
  {
    forall r ensures SpellReceipt(r) != [] && JsonCodecs().parseReceipt(SpellReceipt(r)) == Some(r) {
      JsonReadsReceipt(r);
    }
  }

  lemma ReceiptSpellsPaths(r: Sealed)
    ensures |SpellReceipt(r)| >= |Escaped(PathText(r.payload.destination))| + |Escaped(PathText(r.payload.target))|
  {
    var parts := PayloadParts(r.payload) + [r.tag];
    var rest := parts[1..];
    assert parts[0] == PathText(r.payload.destination) && rest[0] == PathText(r.payload.target);
    assert |Spelled(parts)| == |Quoted(parts[0])| + |Spelled(rest)|;
    assert |Spelled(rest)| == |Quoted(rest[0])| + |Spelled(rest[1..])|;
  }

  lemma JsonSpellsPaths()
    ensures SpellsPaths(JsonCodecs())
  {
    forall r: Sealed
      ensures |SpellReceipt(r)| >= |Escaped(PathText(r.payload.destination))| + |Escaped(PathText(r.payload.target))|
    {
      ReceiptSpellsPaths(r);
    }
  }

  // ---------- the workspace and its artifact ----------

  function Folder(name: Bytes, below: Forest, others: Forest): Forest {
    Entry(name, Directory(448), below, others)
  }

  function Plain(name: Bytes, bytes: Bytes, others: Forest): Forest {
    Entry(name, Regular(384, bytes), Empty, others)
  }

  function Files(subject: Bytes): Forest {
    Plain(BUNDLE, [], Plain(SUBJECT, subject, Plain(WORKSPACE, [], Empty)))
  }

  /** What is preserved of a generation and a content store. */
  function ArtifactOf(cas: Forest, generation: Forest, subject: Bytes): Forest {
    Folder(CAS, cas, Folder(GENERATION, generation, Files(subject)))
  }

  lemma NamesDiffer()
    ensures CAS[0] != GENERATION[0] && CAS[0] != BUNDLE[0] && CAS[0] != SUBJECT[0] && CAS[0] != WORKSPACE[0]
    ensures GENERATION[0] != BUNDLE[0] && GENERATION[0] != SUBJECT[0] && GENERATION[0] != WORKSPACE[0]
    ensures BUNDLE[0] != SUBJECT[0] && BUNDLE[0] != WORKSPACE[0] && SUBJECT[0] != WORKSPACE[0]
  {
  }

  predicate Short(name: Bytes) {
    name != [] && SLASH !in name && |name| < 32
  }

  lemma NamesAreShort()
    ensures Short(CAS) && Short(GENERATION) && Short(BUNDLE) && Short(SUBJECT) && Short(WORKSPACE) && Short(JOURNAL)
  {
  }

  lemma FilesParts(subject: Bytes)
    ensures FileIn(Files(subject), BUNDLE) == Some([]) && FileIn(Files(subject), SUBJECT) == Some(subject)
    ensures NamesIn(Files(subject)) == {BUNDLE, SUBJECT, WORKSPACE}
  {
    NamesDiffer();
    var last := Plain(WORKSPACE, [], Empty);
    assert NamesIn(last) == {WORKSPACE};
    assert NamesIn(Plain(SUBJECT, subject, last)) == {SUBJECT, WORKSPACE};
    assert FileIn(Plain(SUBJECT, subject, last), SUBJECT) == Some(subject);
  }

  lemma ArtifactParts(cas: Forest, generation: Forest, subject: Bytes)
    ensures var tree := ArtifactOf(cas, generation, subject);
      && Child(tree, CAS) == Some(cas) && Child(tree, GENERATION) == Some(generation)
      && FileIn(tree, BUNDLE) == Some([]) && FileIn(tree, SUBJECT) == Some(subject) && ShapeIsExpected(tree)
  {
    NamesDiffer();
    FilesParts(subject);
    var inner := Folder(GENERATION, generation, Files(subject));
    assert FileIn(inner, BUNDLE) == Some([]) && FileIn(inner, SUBJECT) == Some(subject);
    assert NamesIn(inner) == {GENERATION} + NamesIn(Files(subject));
  }

  lemma EntryIsValid(prefix: Trail, f: Forest)
    requires f.Entry? && Short(f.name) && ValidKind(f.kind) && |prefix| <= 1 && (prefix != [] ==> Short(prefix[0]))
    requires ValidRecords(Flatten(prefix + [f.name], f.below)) && ValidRecords(Flatten(prefix, f.others))
    ensures ValidRecords(Flatten(prefix, f))
  {
    var here := prefix + [f.name];
    assert ValidRecord(Record(here, f.kind)) by {
      if prefix == [] {
        assert here == [f.name];
      } else {
        assert here == [prefix[0], f.name] && here[1..] == [f.name];
      }
    }
  }

  lemma FilesAreTree(subject: Bytes)
    requires Fits(subject)
    ensures ValidForest(Files(subject)) && ValidRecords(Flatten([], Files(subject)))
    ensures forall name :: name in [CAS, GENERATION] ==> !HasName(Files(subject), name)
  {
    NamesAreShort();
    NamesDiffer();
    var last := Plain(WORKSPACE, [], Empty);
    var middle := Plain(SUBJECT, subject, last);
    EntryIsValid([], last);
    EntryIsValid([], middle);
    EntryIsValid([], Files(subject));
    assert ValidForest(last) && !HasName(last, CAS) && !HasName(last, GENERATION);
    assert ValidForest(middle) && !HasName(middle, CAS) && !HasName(middle, GENERATION) && !HasName(middle, BUNDLE);
  }

  lemma ArtifactIsTree(cas: Forest, generation: Forest, subject: Bytes)
    requires Fits(subject) && ValidForest(cas) && ValidForest(generation)
    requires ValidRecords(Flatten([CAS], cas)) && ValidRecords(Flatten([GENERATION], generation))
    ensures Hashable(ArtifactOf(cas, generation, subject))
  {
    NamesAreShort();
    NamesDiffer();
    FilesAreTree(subject);
    assert [] + [GENERATION] == [GENERATION] && [] + [CAS] == [CAS];
    var inner := Folder(GENERATION, generation, Files(subject));
    EntryIsValid([], inner);
    EntryIsValid([], ArtifactOf(cas, generation, subject));
    assert !HasName(Files(subject), CAS) && !HasName(Files(subject), GENERATION);
    assert ValidForest(inner) && !HasName(inner, CAS);
  }

  /** A content store that opens: the empty one. */
  lemma SomeStore(hash: Hash) returns (cas: Tree)
    ensures C.Accepted(C.CasAddress(hash), CasIn(cas)) && ValidRecords(Flatten([CAS], cas))
  {
    cas := Empty;
  }

  /** A generation whose journal loads: one with an empty journal. */
  lemma SomeGeneration(hash: Hash, codecs: Codecs) returns (generation: Tree)
    ensures JournalReads(hash, codecs, generation, []) && ValidRecords(Flatten([GENERATION], generation))
  {
    NamesAreShort();
    var journal := Folder(JOURNAL, Empty, Empty);
    EntryIsValid([], journal);
    EntryIsValid([GENERATION], journal);
    generation := journal;
    var none: seq<StoredBatch> := [];
    assert JS.Stores(map[], none) && Chained(BatchChecksum(hash), none) && ChainOps(none) == [];
  }

  lemma DecimalsAreShort()
    ensures |Number(0)| == 1 && |Number(1)| == 1
  {
  }

  /** A workspace and its artifact. */
  datatype Sample = Sample(live: Live, found: Found, state: State)

  /** The artifact is complete, and the state is that of the workspace. */
  ghost predicate Preserves(hash: Hash, s: Sample) {
    && CompleteArtifact(hash, JsonCodecs(), s.found.tree, s.state)
    && SubjectIn(JsonCodecs(), s.found.tree) == Some(s.state) && s.found.syncs
    && Describes(hash, JsonCodecs(), s.live, s.state)
    && Fits(SpellState(s.state)) && s.found.device == 0 && s.found.inode == 0
  }

  lemma SampleStateFits(hash: Hash, live: Live)
    requires live.home.attempt == [1] && live.home.nonce == [2] && live.generation == 0 && live.rest == []
    ensures Fits(SpellState(StateFor(hash, live, [])))
  {
    DecimalsAreShort();
    SpelledLength(StateParts(StateFor(hash, live, [])), 200);
  }

  lemma ArtifactIsComplete(hash: Hash, cas: Tree, generation: Tree, state: State)
    requires C.Accepted(C.CasAddress(hash), CasIn(cas)) && JournalReads(hash, JsonCodecs(), generation, [])
    requires HashArtifact(hash, generation) == state.generationDigest && JournalMatches(hash, [], state)
    ensures var tree := ArtifactOf(cas, generation, SpellState(state));
      CompleteArtifact(hash, JsonCodecs(), tree, state) && SubjectIn(JsonCodecs(), tree) == Some(state)
  {
    ArtifactParts(cas, generation, SpellState(state));
    JsonReadsStates(state);
    assert SalvagedAs(hash, JsonCodecs(), ArtifactOf(cas, generation, SpellState(state)), state, []);
  }

  /** Wherever its directories lie, a workspace can be preserved. */
  lemma SomeSample(hash: Hash, workDir: Place, runtimeDir: Place) returns (s: Sample)
    ensures Preserves(hash, s) && s.live.home.workDir == workDir && s.live.runtimeDir == runtimeDir
  {
    var cas := SomeStore(hash);
    var generation := SomeGeneration(hash, JsonCodecs());
    var live := Live(Home([1], [2], workDir), runtimeDir, 0, generation, []);
    var state := StateFor(hash, live, []);
    SampleStateFits(hash, live);
    ArtifactIsTree(cas, generation, SpellState(state));
    ArtifactIsComplete(hash, cas, generation, state);
    s := Sample(live, Found(0, 0, ArtifactOf(cas, generation, SpellState(state)), true), state);
    assert Describes(hash, JsonCodecs(), live, state);
  }

  /** A payload as the sample has it. */
  predicate Plainly(p: Payload) {
    p.schema == 1 && p.device == 0 && p.inode == 0
  }

  lemma PayloadFits(p: Payload)
    requires Plainly(p) && |PathText(p.destination)| < 4096 && |PathText(p.target)| < 4096
    ensures Fits(SpellPayload(p))
  {
    DecimalsAreShort();
    SpelledLength(PayloadParts(p), 30000);
  }

  lemma ReceiptIsShort(p: Payload, tag: Digest)
    requires Plainly(p) && |PathText(p.destination)| < 10 && |PathText(p.target)| < 10
    ensures |EncodeReceipt(JsonCodecs(), Sealed(p, tag))| <= MAX_RECEIPT_HEX_BYTES
  {
    DecimalsAreShort();
    SpelledLength(PayloadParts(p) + [tag], 200);
  }

  /** A receipt is issued for it at a place apart from its directories. */
  lemma SampleIsIssued(hash: Hash, s: Sample, requested: Place)
    requires Preserves(hash, s) && requested != [] && |PathText(requested)| < 4096
    requires !PathsOverlap(requested, s.live.home.workDir) && !PathsOverlap(requested, s.live.runtimeDir)
    requires |PathText(s.live.home.workDir)| < 4096
    ensures CanIssue(hash, JsonCodecs(), s.live, s.live, requested, Some(s.found), s.state)
  {
    PayloadFits(PayloadFor(hash, JsonCodecs(), s.live, requested, s.found, s.state));
  }

  // ---------- a safe cleanup happens ----------

  const HERE: Place := [[119]]
  const RUNTIME: Place := [[114]]
  const THERE: Place := [[100]]

  /** Under every digest and every key there is a faithful codec, an issued receipt whose token
      opens, and a workspace that is authorised and passes the last check: `DeletionIsSafe`
      speaks of deletions that happen. */
  lemma SafeCleanupHappens(hash: Hash, mac: Hash)
    returns (codecs: Codecs, token: string, p: Payload, i: Issuance, live: Live, found: Found, state: State)
    ensures Faithful(codecs) && IssuedFor(hash, codecs, p, i) && OpenSeal(codecs, mac, token) == Some(p)
    ensures Authorizes(hash, codecs, mac, token, live, Some(found), state)
    ensures Revalidates(hash, codecs, PermitFor(hash, token, p, live, state), live, Some(found))
  {
    var s := SomeSample(hash, HERE, RUNTIME);
    codecs, live, found, state := JsonCodecs(), s.live, s.found, s.state;
    p := PayloadFor(hash, codecs, live, THERE, found, state);
    token, i := TokenFor(codecs, mac, p), Issuance(state, found.tree, THERE, HERE);
    JsonIsFaithful();
    JsonReadsReceipts();
    SampleIsIssued(hash, s, THERE);
    ReceiptIsShort(p, mac(SealPreimage(codecs, p)));
    IssuedTokenOpens(codecs, mac, p);
    IssuedTokenAuthorizes(hash, codecs, mac, live, live, THERE, found, state, live);
  }

  // ---------- a receipt that never opens ----------

  /** `count` segments of 255 times the same byte. */
  function Deep(b: Byte, count: nat): (t: Trail)
    requires b != SLASH
    ensures |t| == count && Segments(t) && (count > 0 ==> t[0][0] == b)
  {
    if count == 0 then [] else [seq(255, _ => b)] + Deep(b, count - 1)
  }

  lemma {:induction false} EscapedRun(b: Byte, count: nat)
    requires b < 8
    ensures |Escaped(seq(count, _ => b))| == 6 * count
  {
    if count > 0 {
      var run := seq(count, _ => b);
      assert run[1..] == seq(count - 1, _ => b);
      EscapedRun(b, count - 1);
    }
  }

  /** Control characters take six bytes each. */
  lemma {:induction false} DeepIsLong(b: Byte, count: nat)
    requires b < 8
    ensures |Slashed(Deep(b, count))| == 256 * count && |Escaped(Slashed(Deep(b, count)))| == 1531 * count
  {
    if count > 0 {
      var segment := seq(255, _ => b);
      var rest := Deep(b, count - 1);
      assert Deep(b, count)[1..] == rest;
      DeepIsLong(b, count - 1);
      EscapedRun(b, 255);
      EscapedAppends([SLASH], segment);
      EscapedAppends([SLASH] + segment, Slashed(rest));
      assert Escaped([SLASH]) == [SLASH];
    }
  }

  lemma DeepIsApart(a: Place, b: Place)
    requires a == Deep(1, 15) && b == Deep(2, 15)
    ensures a != [] && !PathsOverlap(a, b) && !PathsOverlap(a, RUNTIME)
    ensures |PathText(a)| < 4096 && |PathText(b)| < 4096
    ensures 2 * (|Escaped(PathText(a))| + |Escaped(PathText(b))|) > MAX_RECEIPT_HEX_BYTES
  {
    DeepIsLong(1, 15);
    DeepIsLong(2, 15);
    assert a[0] != b[0] && a[0] != RUNTIME[0];
  }

  lemma LongSample(hash: Hash) returns (s: Sample, requested: Place)
    ensures CanIssue(hash, JsonCodecs(), s.live, s.live, requested, Some(s.found), s.state)
    ensures |PathText(requested)| < 4096 && |PathText(s.live.home.workDir)| < 4096
    ensures 2 * (|Escaped(PathText(requested))| + |Escaped(PathText(s.live.home.workDir))|) > MAX_RECEIPT_HEX_BYTES
  {
    var workDir: Place := Deep(2, 15);
    requested := Deep(1, 15);
    DeepIsApart(requested, workDir);
    s := SomeSample(hash, workDir, RUNTIME);
    SampleIsIssued(hash, s, requested);
  }

  /** The failing input: both paths are 15 segments of 255 control characters, so within the
      limits of the file system.  The receipt is issued, and its token is refused for every
      workspace, artifact and state. */
  lemma LongReceiptIsIssued(hash: Hash, mac: Hash)
    returns (codecs: Codecs, live: Live, requested: Place, found: Found, state: State)
    ensures Faithful(codecs) && ReadsReceipts(codecs) && SpellsPaths(codecs)
    ensures CanIssue(hash, codecs, live, live, requested, Some(found), state)
    ensures |PathText(requested)| < 4096 && |PathText(live.home.workDir)| < 4096
    ensures var token := TokenFor(codecs, mac, PayloadFor(hash, codecs, live, requested, found, state));
      forall now, there, s :: !Authorizes(hash, codecs, mac, token, now, there, s)
  {
    var s;
    s, requested := LongSample(hash);
    codecs, live, found, state := JsonCodecs(), s.live, s.found, s.state;
    JsonIsFaithful();
    JsonReadsReceipts();
    JsonSpellsPaths();
    LongReceiptNeverAuthorizes(hash, codecs, mac, PayloadFor(hash, codecs, live, requested, found, state));
  }
}
