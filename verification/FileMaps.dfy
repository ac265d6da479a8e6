/** File contents by path. */
module FileMaps {
  import opened Framing

  function Lookup<K(==)>(f: map<K, Bytes>, p: K): Option<Bytes> {
    if p in f then Some(f[p]) else None
  }

  /** Put contents at a path, or with `None` remove it. */
  function SetFile<K(==,!new)>(f: map<K, Bytes>, p: K, bytes: Option<Bytes>): (g: map<K, Bytes>)
    ensures Lookup(g, p) == bytes
    ensures forall q :: q != p ==> Lookup(g, q) == Lookup(f, q)
  {
    match bytes case Some(b) => f[p := b] case None => f - {p}
  }

  ghost predicate OnlyAt<K(!new)>(f: map<K, Bytes>, g: map<K, Bytes>, p: K) {
    forall q :: q != p ==> Lookup(f, q) == Lookup(g, q)
  }

  lemma SameFiles<K(!new)>(f: map<K, Bytes>, g: map<K, Bytes>)
    requires forall q :: q in f || q in g ==> Lookup(f, q) == Lookup(g, q)
    ensures f == g
  {
    forall q | q in f || q in g ensures q in f && q in g && f[q] == g[q] {
      assert Lookup(f, q) == Lookup(g, q);
    }
  }

  /** Putting the old contents back undoes any change at that path. */
  lemma SetFileUndoes<K(!new)>(f: map<K, Bytes>, g: map<K, Bytes>, p: K)
    requires OnlyAt(f, g, p)
    ensures SetFile(g, p, Lookup(f, p)) == f
  {
    SameFiles(SetFile(g, p, Lookup(f, p)), f);
  }
}
