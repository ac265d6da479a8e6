/** Syncing a staged tree, file by file and directory by directory.

  Publication treats a staged directory as one entry that is synced or not.  Here is why it
  may: after the recursive sync no crash can change the tree, and before it some crash can.
*/
module TreeSync {
  import opened Framing
  import D = Durability

  datatype Kind = File(data: Bytes, synced: bool) | Symlink(target: string) | Directory | Special

  /** A directory's entries: the first, whether its directory entry is durable, what lies
      below it, and the others. */
  datatype Forest = Nil | Entry(name: string, durable: bool, kind: Kind, below: Forest, others: Forest)

  /** Sync every file, and every directory after its entries; special files are refused. */
  function SyncEntries(f: Forest): Option<Forest> {
    match f
    case Nil => Some(Nil)
    case Entry(name, durable, kind, below, others) =>
      var rest := SyncEntries(others);
      var inner := if kind.Directory? then SyncEntries(below) else Some(below);
      if kind.Special? || rest.None? || inner.None? then None
      else
        match kind
        case Directory => Some(Entry(name, durable, kind, SyncDirectory(inner.value), rest.value))
        case File(data, _) => Some(Entry(name, durable, File(data, true), below, rest.value))
        case _ => Some(Entry(name, durable, kind, below, rest.value))
  }

  /** Syncing a directory makes its entries durable. */
  function SyncDirectory(f: Forest): Forest {
    match f
    case Nil => Nil
    case Entry(name, _, kind, below, others) => Entry(name, true, kind, below, SyncDirectory(others))
  }

  function SyncTree(f: Forest): Option<Forest> {
    match SyncEntries(f) case None => None case Some(g) => Some(SyncDirectory(g))
  }

  /** Only directories have entries. */
  predicate Shaped(f: Forest) {
    f.Entry? ==> (!f.kind.Directory? ==> f.below.Nil?) && Shaped(f.below) && Shaped(f.others)
  }

  predicate AllDurable(f: Forest) {
    f.Entry? ==> f.durable && (f.kind.File? ==> f.kind.synced) && AllDurable(f.below) && AllDurable(f.others)
  }

  predicate SameKind(a: Kind, b: Kind) {
    if a.File? then b.File? && a.data == b.data else a == b
  }

  /** Equal names, kinds and contents, whatever is synced. */
  predicate Same(f: Forest, g: Forest) {
    match f
    case Nil => g.Nil?
    case Entry(name, _, kind, below, others) =>
      g.Entry? && g.name == name && SameKind(kind, g.kind) && Same(below, g.below) && Same(others, g.others)
  }

  /** `g` is what a crash may leave of `f`: entries that are not durable may be gone, and files
      that are not synced may hold anything. */
  predicate Crash(f: Forest, g: Forest) {
    match f
    case Nil => g.Nil?
    case Entry(name, durable, kind, below, others) =>
      || (!durable && Crash(others, g))
      || (&& g.Entry? && g.name == name && Crash(below, g.below) && Crash(others, g.others)
          && (if kind.File? && !kind.synced then g.kind.File? else SameKind(kind, g.kind)))
  }

  // ---------- what syncing achieves ----------

  /** Everything below this level is durable; the entries of this level need not be. */
  predicate DurableBelow(f: Forest) {
    f.Entry? ==> (f.kind.File? ==> f.kind.synced) && AllDurable(f.below) && DurableBelow(f.others)
  }

  lemma {:induction false} SyncDirectoryFinishes(f: Forest)
    requires DurableBelow(f)
    ensures AllDurable(SyncDirectory(f)) && Same(f, SyncDirectory(f))
  {
    if f.Entry? {
      SyncDirectoryFinishes(f.others);
      SameReflexive(f.below);
    }
  }

  lemma {:induction false} SameReflexive(f: Forest)
    ensures Same(f, f)
  {
    if f.Entry? {
      SameReflexive(f.below);
      SameReflexive(f.others);
    }
  }

  lemma {:induction false} SameTransitive(f: Forest, g: Forest, h: Forest)
    requires Same(f, g) && Same(g, h)
    ensures Same(f, h)
  {
    if f.Entry? {
      SameTransitive(f.below, g.below, h.below);
      SameTransitive(f.others, g.others, h.others);
    }
  }

  lemma {:induction false} SyncEntriesWorks(f: Forest)
    requires Shaped(f) && SyncEntries(f).Some?
    ensures DurableBelow(SyncEntries(f).value) && Same(f, SyncEntries(f).value)
  {
    if f.Entry? {
      SyncEntriesWorks(f.others);
      if f.kind.Directory? {
        SyncEntriesWorks(f.below);
        var inner := SyncEntries(f.below).value;
        SyncDirectoryFinishes(inner);
        SameTransitive(f.below, inner, SyncDirectory(inner));
      } else {
        SameReflexive(f.below);
      }
    }
  }

  lemma {:induction false} DurableSurvives(f: Forest, g: Forest)
    requires AllDurable(f) && Crash(f, g)
    ensures Same(f, g)
  {
    if f.Entry? {
      DurableSurvives(f.below, g.below);
      DurableSurvives(f.others, g.others);
    }
  }

  function Count(f: Forest): nat {
    if f.Nil? then 0 else 1 + Count(f.below) + Count(f.others)
  }

  lemma {:induction false} SameCount(f: Forest, g: Forest)
    requires Same(f, g)
    ensures Count(f) == Count(g)
  {
    if f.Entry? {
      SameCount(f.below, g.below);
      SameCount(f.others, g.others);
    }
  }

  lemma {:induction false} CrashKeepsAll(f: Forest)
    ensures Crash(f, f)
  {
    if f.Entry? {
      CrashKeepsAll(f.below);
      CrashKeepsAll(f.others);
    }
  }

  /** Some crash changes a tree that is not all durable. */
  lemma {:induction false} UndurableCanChange(f: Forest) returns (g: Forest)
    requires !AllDurable(f)
    ensures Crash(f, g) && !Same(f, g)
  {
    CrashKeepsAll(f.below);
    CrashKeepsAll(f.others);
    if !f.durable {
      g := f.others;
      if Same(f, g) {
        SameCount(f, g);
      }
    } else if f.kind.File? && !f.kind.synced {
      g := f.(kind := File(f.kind.data + [0], true));
    } else if !AllDurable(f.below) {
      var inner := UndurableCanChange(f.below);
      g := f.(below := inner);
    } else {
      var rest := UndurableCanChange(f.others);
      g := f.(others := rest);
    }
  }

  /** A tree withstands every crash exactly when all of it is durable, and a completed sync
      makes all of it durable without changing its contents. */
  lemma SyncedTreeWithstandsCrashes(f: Forest)
    requires Shaped(f)
    ensures AllDurable(f) <==> forall g :: Crash(f, g) ==> Same(f, g)
    ensures SyncTree(f).Some? ==> AllDurable(SyncTree(f).value) && Same(f, SyncTree(f).value)
  {
    if AllDurable(f) {
      forall g | Crash(f, g) ensures Same(f, g) {
        DurableSurvives(f, g);
      }
    } else {
      var g := UndurableCanChange(f);
    }
    if SyncTree(f).Some? {
      SyncEntriesWorks(f);
      var g := SyncEntries(f).value;
      SyncDirectoryFinishes(g);
      SameTransitive(f, g, SyncDirectory(g));
    }
  }

  // ---------- a tree as one directory entry ----------

  function StripKind(k: Kind): Kind {
    if k.File? then File(k.data, true) else k
  }

  /** The tree without its marks of what is synced. */
  function Strip(f: Forest): Forest {
    match f
    case Nil => Nil
    case Entry(name, _, kind, below, others) => Entry(name, true, StripKind(kind), Strip(below), Strip(others))
  }

  lemma {:induction false} SameIsStripped(f: Forest, g: Forest)
    ensures Same(f, g) <==> Strip(f) == Strip(g)
  {
    if f.Entry? && g.Entry? {
      SameIsStripped(f.below, g.below);
      SameIsStripped(f.others, g.others);
    }
  }

  /** A staged tree as publication sees it: one folder, synced when all of it is durable. */
  function AsItem(f: Forest): D.Item<Forest> {
    D.Item(D.Folder, Strip(f), AllDurable(f))
  }

  /** Every crash of the tree is a crash of that one entry. */
  lemma CrashOfTreeIsCrashOfItem(f: Forest, g: Forest)
    requires Crash(f, g)
    ensures D.Survives(Some(AsItem(f)), Some(D.Item(D.Folder, Strip(g), true)))
  {
    if AllDurable(f) {
      DurableSurvives(f, g);
      SameIsStripped(f, g);
    }
  }
}
