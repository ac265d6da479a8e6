/** A directory whose entries may or may not survive a crash.

  Each name carries the entry visible now and the set of entries a crash may
  leave behind.  Changing a name adds a candidate; syncing the directory leaves
  only the visible one.  Candidates are chosen name by name, so a crash may keep
  one half of a rename and lose the other.  A file whose data was not synced
  comes back with arbitrary data.
*/
module Durability {
  import opened Framing

  datatype Kind = Regular | Folder | Other

  datatype Item<T> = Item(kind: Kind, data: T, synced: bool)

  datatype Slot<T(==)> = Slot(now: Option<Item<T>>, candidates: set<Option<Item<T>>>)

  type Directory<T(==)> = map<string, Slot<T>>

  function Now<T(==)>(d: Directory<T>, name: string): Option<Item<T>> {
    if name in d then d[name].now else None
  }

  function Candidates<T(==)>(d: Directory<T>, name: string): set<Option<Item<T>>> {
    if name in d then d[name].candidates else {None}
  }

  /** Create, overwrite, link or (with `None`) remove a name. */
  function Put<T(==)>(d: Directory<T>, name: string, item: Option<Item<T>>): (r: Directory<T>)
    ensures Now(r, name) == item && Candidates(r, name) == Candidates(d, name) + {item}
    ensures forall other :: other != name ==>
      Now(r, other) == Now(d, other) && Candidates(r, other) == Candidates(d, other)
  {
    d[name := Slot(item, Candidates(d, name) + {item})]
  }

  function Rename<T(==)>(d: Directory<T>, source: string, target: string): (r: Directory<T>)
    ensures source != target ==> Now(r, target) == Now(d, source) && Now(r, source) == None
    ensures source != target ==> Candidates(r, target) == Candidates(d, target) + {Now(d, source)}
    ensures forall other :: other != source && other != target ==>
      Now(r, other) == Now(d, other) && Candidates(r, other) == Candidates(d, other)
  {
    Put(Put(d, target, Now(d, source)), source, None)
  }

  /** The visible entries are the only ones left after a crash. */
  function SyncDirectory<T(==)>(d: Directory<T>): (r: Directory<T>)
    ensures forall name :: Now(r, name) == Now(d, name) && Candidates(r, name) == {Now(d, name)}
  {
    map name | name in d :: Slot(d[name].now, {d[name].now})
  }

  ghost predicate Survives<T>(before: Option<Item<T>>, after: Option<Item<T>>) {
    match before
    case None => after.None?
    case Some(item) =>
      && after.Some? && after.value.synced && after.value.kind == item.kind
      && (item.synced ==> after == before)
  }

  ghost predicate SlotSurvives<T>(d: Directory<T>, crashed: Directory<T>, name: string) {
    && Candidates(crashed, name) == {Now(crashed, name)}
    && exists item :: item in Candidates(d, name) && Survives(item, Now(crashed, name))
  }

  /** `crashed` is a directory that a crash of `d` may leave. */
  ghost predicate CrashImage<T>(d: Directory<T>, crashed: Directory<T>) {
    forall name :: SlotSurvives(d, crashed, name)
  }

  /** A crash leaves exactly this synced entry under this name. */
  predicate Settled<T(==)>(d: Directory<T>, name: string, item: Item<T>) {
    item.synced && Now(d, name) == Some(item) && Candidates(d, name) == {Some(item)}
  }

  lemma SettledSurvives<T>(d: Directory<T>, crashed: Directory<T>, name: string, item: Item<T>)
    requires Settled(d, name, item) && CrashImage(d, crashed)
    ensures Settled(crashed, name, item)
  {
    assert SlotSurvives(d, crashed, name);
  }

  /** The entry visible now could also be the one a crash leaves. */
  ghost predicate Coherent<T>(d: Directory<T>) {
    forall name :: Now(d, name) in Candidates(d, name)
  }

  lemma PutCoherent<T>(d: Directory<T>, name: string, item: Option<Item<T>>)
    requires Coherent(d)
    ensures Coherent(Put(d, name, item))
  {
  }

  lemma CrashCoherent<T>(d: Directory<T>, crashed: Directory<T>)
    requires CrashImage(d, crashed)
    ensures Coherent(crashed)
  {
    forall name ensures Now(crashed, name) in Candidates(crashed, name) {
      assert SlotSurvives(d, crashed, name);
    }
  }

  function Flushed<T>(item: Option<Item<T>>): Option<Item<T>> {
    match item
    case None => None
    case Some(i) => Some(i.(synced := true))
  }

  /** The crash in which every name keeps its visible entry, except that `name` comes back as `item`. */
  function CrashWith<T(==)>(d: Directory<T>, name: string, item: Option<Item<T>>): Directory<T> {
    map n | n in d :: var kept := Flushed(if n == name then item else d[n].now); Slot(kept, {kept})
  }

  lemma CrashWithIsImage<T>(d: Directory<T>, name: string, item: Option<Item<T>>)
    requires Coherent(d) && item in Candidates(d, name)
    ensures CrashImage(d, CrashWith(d, name, item))
    ensures Now(CrashWith(d, name, item), name) == Flushed(item)
  {
    var crashed := CrashWith(d, name, item);
    forall n ensures SlotSurvives(d, crashed, n) {
      var kept := if n == name then item else Now(d, n);
      assert Now(d, n) in Candidates(d, n);
      assert kept in Candidates(d, n) && Survives(kept, Now(crashed, n));
    }
  }

  // ---------- listings and runs of states ----------

  /** The entries visible in a directory. */
  function Visible<T(==)>(d: Directory<T>): map<string, Item<T>> {
    map name | name in d && d[name].now.Some? :: d[name].now.value
  }

  /** `listing` enumerates `entries` in some order. */
  ghost predicate Lists<V(!new)>(listing: seq<(string, V)>, entries: map<string, V>) {
    && |listing| == |entries|
    && (forall i, j :: 0 <= i < j < |listing| ==> listing[i].0 != listing[j].0)
    && (forall e :: e in listing ==> e.0 in entries && entries[e.0] == e.1)
    && (forall name :: name in entries ==> (name, entries[name]) in listing)
  }

  /** List a directory in some order. */
  method Enumerate<V(!new)>(entries: map<string, V>) returns (listing: seq<(string, V)>)
    ensures Lists(listing, entries)
  {
    listing := [];
    var names := entries.Keys;
    while names != {}
      invariant names <= entries.Keys && |listing| + |names| == |entries.Keys|
      invariant forall i, j :: 0 <= i < j < |listing| ==> listing[i].0 != listing[j].0
      invariant forall e :: e in listing ==> e.0 in entries && e.0 !in names && entries[e.0] == e.1
      invariant forall name :: name in entries && name !in names ==> (name, entries[name]) in listing
      decreases names
    {
      var name :| name in names;
      ghost var before := listing;
      listing := listing + [(name, entries[name])];
      names := names - {name};
      assert forall e :: e in listing <==> e in before || e == (name, entries[name]);
    }
  }

  /** The directory that durably holds exactly these entries. */
  function DirectoryOf<T(==)>(entries: map<string, Item<T>>): (d: Directory<T>)
    ensures Visible(d) == entries
  {
    map name | name in entries :: Slot(Some(entries[name]), {Some(entries[name])})
  }

  /** Where a run of states ends. */
  function Final<T(==)>(d: Directory<T>, states: seq<Directory<T>>): Directory<T> {
    if states == [] then d else states[|states| - 1]
  }

  /** `s` differs from `d` only in one name, whose new entries are all `allowed`. */
  ghost predicate Restaged<T(!new)>(d: Directory<T>, s: Directory<T>, name: string, allowed: Option<Item<T>> -> bool) {
    && (forall n :: n != name ==> Now(s, n) == Now(d, n) && Candidates(s, n) == Candidates(d, n))
    && Now(s, name) in Candidates(s, name) && (Now(s, name) == Now(d, name) || allowed(Now(s, name)))
    && forall v :: v in Candidates(s, name) ==> v in Candidates(d, name) || allowed(v)
  }

  lemma PutRestages<T(!new)>(d: Directory<T>, s: Directory<T>, name: string, allowed: Option<Item<T>> -> bool,
                             item: Option<Item<T>>)
    requires (s == d || Restaged(d, s, name, allowed)) && allowed(item)
    ensures Restaged(d, Put(s, name, item), name, allowed)
  {
  }

  /** One directory on disk, together with every state it passed through. */
  class Disk<T(==)> {
    var dir: Directory<T>
    ghost var trail: seq<Directory<T>>

    constructor (initial: Directory<T>)
      ensures dir == initial && trail == [initial]
    {
      dir := initial;
      trail := [initial];
    }

    method Change(name: string, item: Option<Item<T>>)
      modifies this
      ensures dir == Put(old(dir), name, item) && trail == old(trail) + [dir]
    {
      dir := Put(dir, name, item);
      trail := trail + [dir];
    }

    method Sync()
      modifies this
      ensures dir == SyncDirectory(old(dir)) && trail == old(trail) + [dir]
    {
      dir := SyncDirectory(dir);
      trail := trail + [dir];
    }
  }
}
