/**
 Pending chain states: the layers of changes a block or a transaction makes before
 they reach the database, and the undo states that take them back.

 A layer holds two tables. `entries` is any of the ordinary tables (accounts,
 balances, assets, ...), all kept the same way. `storages` is the contract storage
 table, which has no set of removed keys of its own: it shares the one of the
 contract entries and never writes to it.
 */
module UndoStates {
  import opened Basics

  datatype Tables<!K, +V, +W> = Tables(entries: map<K, V>, storages: map<K, W>)

  datatype Change<!K, +V, +W> = Change(entries: map<K, V>, storages: map<K, W>, removes: set<K>)

  function Get<K, V>(m: map<K, V>, k: K): Option<V> {
    if k in m then Some(m[k]) else None
  }

  function Only<K, V>(m: map<K, V>, keys: set<K>): map<K, V> {
    map k | k in m && k in keys :: m[k]
  }

  /** What is seen through a layer: its own rows first, then nothing at a removed
      key, then what the layer below shows. */
  function View<K, V, W>(c: Change<K, V, W>, base: Tables<K, V, W>): Tables<K, V, W> {
    Tables((base.entries - c.removes) + c.entries, (base.storages - c.removes) + c.storages)
  }

  /** The layer that takes `c` back from a database holding `base`. */
  function Undo<K, V, W>(c: Change<K, V, W>, base: Tables<K, V, W>): Change<K, V, W> {
    Change(
      Only(base.entries, c.removes + c.entries.Keys),
      Only(base.storages, c.removes + c.storages.Keys),
      c.entries.Keys - base.entries.Keys)
  }

  /** The layer `p` over `base` after the layer `c` above it was applied to it. */
  function Merged<K, V, W>(c: Change<K, V, W>, p: Change<K, V, W>, base: Tables<K, V, W>): Change<K, V, W> {
    Change(
      (p.entries - c.removes) + c.entries,
      (p.storages - c.removes) + c.storages,
      (p.removes + c.removes * View(p, base).entries.Keys) - c.entries.Keys)
  }

  /** Key by key: a layer shows its own row, nothing where it removed, or what is below. */
  lemma ViewShows<K, V, W>(c: Change<K, V, W>, base: Tables<K, V, W>, k: K)
    ensures Get(View(c, base).entries, k) ==
      if k in c.entries then Some(c.entries[k]) else if k in c.removes then None else Get(base.entries, k)
    ensures Get(View(c, base).storages, k) ==
      if k in c.storages then Some(c.storages[k]) else if k in c.removes then None else Get(base.storages, k)
  {
  }

  /** An undo state holds the old rows of what was changed, and removes what was new. */
  lemma UndoHolds<K, V, W>(c: Change<K, V, W>, base: Tables<K, V, W>, k: K)
    ensures Get(Undo(c, base).entries, k) == if k in c.entries || k in c.removes then Get(base.entries, k) else None
    ensures Get(Undo(c, base).storages, k) == if k in c.storages || k in c.removes then Get(base.storages, k) else None
    ensures k in Undo(c, base).removes <==> k in c.entries && k !in base.entries
  {
  }

  //  Taking a change back

  /** The keys whose storage the undo state of `c` puts back wrongly: a storage that
      is new without its contract being new, which nothing removes again, and an old
      storage that is dropped because its contract is taken for new. */
  ghost predicate StorageSlips<K, V, W>(c: Change<K, V, W>, base: Tables<K, V, W>, k: K) {
    var newEntry := k in c.entries && k !in base.entries;
    || (k in c.storages && k !in base.storages && !newEntry)
    || (newEntry && k in base.storages && k !in c.removes && k !in c.storages)
  }

  ghost predicate UndoSafe<K(!new), V, W>(c: Change<K, V, W>, base: Tables<K, V, W>) {
    forall k :: !StorageSlips(c, base, k)
  }

  /** Undoing a change restores every ordinary table. */
  lemma UndoRestoresEntries<K, V, W>(c: Change<K, V, W>, base: Tables<K, V, W>)
    ensures View(Undo(c, base), View(c, base)).entries == base.entries
  {
  }

  /** It restores the storage at a key exactly when that key does not slip. */
  lemma UndoRestoresStorageAt<K, V, W>(c: Change<K, V, W>, base: Tables<K, V, W>, k: K)
    ensures Get(View(Undo(c, base), View(c, base)).storages, k) == Get(base.storages, k)
        <==> !StorageSlips(c, base, k)
  {
    var after := View(c, base);
    var back := View(Undo(c, base), after);
    assert k in Undo(c, base).removes <==> k in c.entries && k !in base.entries;
    assert k in Undo(c, base).storages <==> k in base.storages && (k in c.removes || k in c.storages);
    assert k in after.storages <==> k in c.storages || (k in base.storages && k !in c.removes);
    assert k in back.storages <==> k in Undo(c, base).storages || (k in after.storages && k !in Undo(c, base).removes);
  }

  lemma SameRows<K(!new), V>(m: map<K, V>, n: map<K, V>)
    ensures m == n <==> forall k :: Get(m, k) == Get(n, k)
  {
    if forall k :: Get(m, k) == Get(n, k) {
      forall k ensures k in m <==> k in n {
        assert Get(m, k) == Get(n, k);
      }
      forall k | k in m ensures m[k] == n[k] {
        assert Get(m, k) == Get(n, k);
      }
      assert m == n;
    }
  }

  /** Taking a change back gives the old tables exactly when no storage slips. */
  lemma UndoRestores<K(!new), V, W>(c: Change<K, V, W>, base: Tables<K, V, W>)
    ensures View(Undo(c, base), View(c, base)) == base <==> UndoSafe(c, base)
  {
    var back := View(Undo(c, base), View(c, base));
    UndoRestoresEntries(c, base);
    SameRows(back.storages, base.storages);
    forall k ensures Get(back.storages, k) == Get(base.storages, k) <==> !StorageSlips(c, base, k) {
      UndoRestoresStorageAt(c, base, k);
    }
    if UndoSafe(c, base) {
      assert back == base;
    }
  }

  /** A change to the ordinary tables alone can always be taken back. */
  lemma OrdinaryTablesUndo<K(!new), V, W>(c: Change<K, V, W>, base: Tables<K, V, W>)
    requires c.storages == map[] && base.storages == map[]
    ensures View(Undo(c, base), View(c, base)) == base
  {
    UndoRestores(c, base);
  }

  /** A contract already registered that first writes storage: the undo state leaves
      the storage behind. */
  lemma FirstStorageStays<K(!new), V, W>(k: K, entry: V, storage: W)
    ensures
      var base := Tables(map[k := entry], map[]);
      var c := Change(map[], map[k := storage], {});
      View(Undo(c, base), View(c, base)).storages == map[k := storage]
      && !UndoSafe(c, base)
  {
    var base := Tables(map[k := entry], map[]);
    var c := Change(map[], map[k := storage], {});
    assert View(Undo(c, base), View(c, base)).storages == map[k := storage];
    assert StorageSlips(c, base, k);
  }

  //  Layers over layers

  /** The keys whose storage shows differently once `c` has been merged into `p`: a
      removed storage whose contract `p` does not show, and one removed in `p` whose
      contract `c` writes again. */
  ghost predicate MergeSlips<K, V, W>(c: Change<K, V, W>, p: Change<K, V, W>, base: Tables<K, V, W>, k: K) {
    && k in base.storages && k !in c.storages
    && ( || (k in c.removes && (k in c.entries || (k !in p.removes && k !in View(p, base).entries)))
         || (k !in c.removes && k in c.entries && k in p.removes && k !in p.storages) )
  }

  /** A layer that drops a storage whose contract nothing registers: merged into an empty
      layer, it no longer hides the storage. */
  lemma MergeForgets<K(!new), V, W>(k: K, storage: W)
    ensures
      var base: Tables<K, V, W> := Tables(map[], map[k := storage]);
      var c: Change<K, V, W>, p: Change<K, V, W> := Change(map[], map[], {k}), Change(map[], map[], {});
      && View(c, View(p, base)).storages == map[] && View(Merged(c, p, base), base).storages == map[k := storage]
      && MergeSlips(c, p, base, k)
  {
    var base: Tables<K, V, W> := Tables(map[], map[k := storage]);
    var c: Change<K, V, W>, p: Change<K, V, W> := Change(map[], map[], {k}), Change(map[], map[], {});
    assert Merged(c, p, base).removes == {};
    assert View(Merged(c, p, base), base).storages == map[k := storage];
  }

  lemma MergeKeepsEntries<K, V, W>(c: Change<K, V, W>, p: Change<K, V, W>, base: Tables<K, V, W>)
    ensures View(Merged(c, p, base), base).entries == View(c, View(p, base)).entries
  {
  }

  lemma MergeKeepsStorageAt<K, V, W>(c: Change<K, V, W>, p: Change<K, V, W>, base: Tables<K, V, W>, k: K)
    ensures Get(View(Merged(c, p, base), base).storages, k) == Get(View(c, View(p, base)).storages, k)
        <==> !MergeSlips(c, p, base, k)
  {
    var m := Merged(c, p, base);
    assert k in m.storages <==> k in c.storages || (k in p.storages && k !in c.removes);
    assert k in m.removes <==> (k in p.removes || (k in c.removes && k in View(p, base).entries)) && k !in c.entries;
    assert k in View(m, base).storages <==> k in m.storages || (k in base.storages && k !in m.removes);
  }

  /** Applying a layer to the layer below shows what the upper layer showed, exactly
      when no storage slips. */
  lemma MergeKeepsView<K(!new), V, W>(c: Change<K, V, W>, p: Change<K, V, W>, base: Tables<K, V, W>)
    ensures View(Merged(c, p, base), base) == View(c, View(p, base)) <==> forall k :: !MergeSlips(c, p, base, k)
  {
    var after, upper := View(Merged(c, p, base), base), View(c, View(p, base));
    MergeKeepsEntries(c, p, base);
    SameRows(after.storages, upper.storages);
    forall k ensures Get(after.storages, k) == Get(upper.storages, k) <==> !MergeSlips(c, p, base, k) {
      MergeKeepsStorageAt(c, p, base, k);
    }
    if forall k :: !MergeSlips(c, p, base, k) {
      assert after == upper;
    }
  }
}
