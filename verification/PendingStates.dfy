/** The mutable layers: a database, and pending states stacked over it. */
module PendingStates {
  import opened Basics
  import opened UndoStates

  //  One step of the two loops that apply a table

  lemma RemoveStep<K, V>(m: map<K, V>, gone: set<K>, k: K)
    ensures (m - gone) - {k} == m - (gone + {k})
  {
  }

  lemma RemoveNothing<K, V>(m: map<K, V>)
    ensures m - {} == m
  {
  }

  lemma StoreStep<K, V>(m: map<K, V>, all: map<K, V>, done: set<K>, k: K)
    requires k in all
    ensures (m + Only(all, done))[k := all[k]] == m + Only(all, done + {k})
  {
  }

  lemma OnlyEnds<K, V>(m: map<K, V>, all: map<K, V>)
    ensures Only(m, {}) == map[] && m + Only(all, {}) == m && Only(all, all.Keys) == all
  {
    assert Only(all, {}) == map[];
  }

  lemma SetEnds<K>(all: set<K>)
    ensures all - all == {} && all - {} == all && all + {} == all
  {
  }

  lemma OnlyStep<K, V>(m: map<K, V>, done: set<K>, k: K)
    ensures Only(m, done + {k}) == if k in m then Only(m, done)[k := m[k]] else Only(m, done)
  {
  }

  lemma UndoneStep<K, V>(m: map<K, V>, removes: set<K>, done: set<K>, k: K)
    ensures Only(m, removes + (done + {k})) ==
              if k in m then Only(m, removes + done)[k := m[k]] else Only(m, removes + done)
    ensures (done + {k}) - m.Keys == if k in m then done - m.Keys else (done - m.Keys) + {k}
  {
    OnlyStep(m, removes + done, k);
    assert removes + done + {k} == removes + (done + {k});
  }

  /** The layer `p` over `base` after the entries at `keys` were removed through it. */
  function Removed<K, V, W>(p: Change<K, V, W>, base: Tables<K, V, W>, keys: set<K>): Change<K, V, W> {
    Change(p.entries - keys, p.storages, p.removes + keys * View(p, base).entries.Keys)
  }

  lemma RemovedNothing<K, V, W>(p: Change<K, V, W>, base: Tables<K, V, W>)
    ensures Removed(p, base, {}) == p
  {
  }

  lemma RemovedStep<K, V, W>(p: Change<K, V, W>, base: Tables<K, V, W>, done: set<K>, k: K)
    requires k !in done
    ensures
      var now := Removed(p, base, done);
      Removed(p, base, done + {k}) ==
        if k in View(now, base).entries
        then Change(now.entries - {k}, now.storages, now.removes + {k}) else now
  {
    RemoveStep(p.entries, done, k);
  }

  /** The tables on disk. */
  class Database<K(==), V, W> {
    var tables: Tables<K, V, W>

    constructor (initial: Tables<K, V, W>)
      ensures tables == initial
    {
      tables := initial;
    }

    method RemoveEntry(k: K)
      modifies this
      ensures tables == old(tables).(entries := old(tables.entries) - {k})
    {
      if k in tables.entries {
        tables := tables.(entries := tables.entries - {k});
      }
    }

    method RemoveStorage(k: K)
      modifies this
      ensures tables == old(tables).(storages := old(tables.storages) - {k})
    {
      if k in tables.storages {
        tables := tables.(storages := tables.storages - {k});
      }
    }
  }

  /** What a pending state lies over: nothing yet, the database, or another layer. */
  datatype Layer<!K(==), !V, !W> =
    | Nothing
    | Root(db: Database<K, V, W>)
    | Over(pending: PendingState<K, V, W>)

  class PendingState<K(==), V, W> {
    var entries: map<K, V>
    var storages: map<K, W>
    var removes: set<K>
    var prev: Layer<K, V, W>
    ghost var below: seq<PendingState<K, V, W>>
    ghost var roots: set<Database<K, V, W>>

    ghost predicate Valid()
      reads this`prev, this`below, this`roots, below
      decreases |below|
    {
      && this !in below
      && match prev
         case Nothing => below == [] && roots == {}
         case Root(db) => below == [] && roots == {db}
         case Over(p) =>
           && |below| > 0 && below[0] == p
           && p.below == below[1..] && p.roots == roots
           && p.Valid()
    }

    ghost function Own(): Change<K, V, W>
      reads this
    {
      Change(entries, storages, removes)
    }

    /** What the layer below shows. */
    ghost function Base(): Tables<K, V, W>
      requires Valid()
      reads this`prev, this`below, this`roots, below, roots
      decreases |below|, 0
    {
      match prev
      case Nothing => Tables(map[], map[])
      case Root(db) => db.tables
      case Over(p) => p.Seen()
    }

    ghost function Seen(): Tables<K, V, W>
      requires Valid()
      reads this, below, roots
      decreases |below|, 1
    {
      View(Own(), Base())
    }

    constructor (prev: Layer<K, V, W>)
      requires prev.Over? ==> prev.pending.Valid()
      ensures Valid() && this.prev == prev && Own() == Change(map[], map[], {})
      ensures roots == match prev { case Nothing => {} case Root(db) => {db} case Over(p) => p.roots }
      ensures below == if prev.Over? then [prev.pending] + prev.pending.below else []
    {
      entries, storages, removes := map[], map[], {};
      this.prev := prev;
      below := if prev.Over? then [prev.pending] + prev.pending.below else [];
      roots := match prev { case Nothing => {} case Root(db) => {db} case Over(p) => p.roots };
    }

    /** A copy of a saved layer, which lies over nothing. */
    constructor Copy(saved: Change<K, V, W>)
      ensures Valid() && prev == Nothing && Own() == saved
    {
      entries, storages, removes := saved.entries, saved.storages, saved.removes;
      prev, below, roots := Nothing, [], {};
    }

    /** Sets the layer on a database. */
    method SetPrevState(db: Database<K, V, W>)
      modifies this`prev, this`below, this`roots
      ensures Valid() && prev == Root(db) && Own() == old(Own())
    {
      prev, below, roots := Root(db), [], {db};
    }

    //  Reading through the layers

    method LookupEntry(k: K) returns (r: Option<V>)
      requires Valid()
      ensures r == Get(Seen().entries, k)
      decreases |below|
    {
      if k in entries { return Some(entries[k]); }
      if k in removes { return None; }
      match prev
      case Nothing => r := None;
      case Root(db) => r := Get(db.tables.entries, k);
      case Over(p) => r := p.LookupEntry(k);
    }

    method LookupStorage(k: K) returns (r: Option<W>)
      requires Valid()
      ensures r == Get(Seen().storages, k)
      decreases |below|
    {
      if k in storages { return Some(storages[k]); }
      var entry: Option<W> := None;
      match prev {
        case Nothing => return None;
        case Root(db) => entry := Get(db.tables.storages, k);
        case Over(p) => entry := p.LookupStorage(k);
      }
      r := if entry.Some? && k !in removes then entry else None;
    }

    //  Writing to the top layer

    method StoreEntry(k: K, v: V)
      modifies this`entries, this`removes
      ensures Own() == Change(old(entries)[k := v], storages, old(removes) - {k})
    {
      removes := removes - {k};
      entries := entries[k := v];
    }

    method RemoveEntry(k: K)
      requires Valid()
      modifies this`entries, this`removes
      ensures Valid() && Base() == old(Base())
      ensures Own() == if k in old(Seen().entries)
                       then Change(old(entries) - {k}, storages, old(removes) + {k}) else old(Own())
    {
      var found := LookupEntry(k);
      if found.Some? {
        entries := entries - {k};
        removes := removes + {k};
      }
    }

    method StoreStorage(k: K, w: W)
      modifies this`storages
      ensures Own() == old(Own()).(storages := old(storages)[k := w])
    {
      storages := storages[k := w];
    }

    method RemoveStorage(k: K)
      requires Valid()
      modifies this`storages
      ensures Valid()
      ensures Own() == old(Own()).(storages := old(storages) - {k})
    {
      var found := LookupStorage(k);
      if found.Some? {
        storages := storages - {k};
      }
    }

    //  Pushing the layer down

    method RemoveEntriesFromDatabase(db: Database<K, V, W>)
      modifies db
      ensures db.tables == old(db.tables).(entries := old(db.tables.entries) - removes)
    {
      var keys := removes;
      ghost var was, gone := db.tables, {};
      RemoveNothing(was.entries);
      while keys != {}
        invariant keys <= removes && gone == removes - keys
        invariant db.tables == was.(entries := was.entries - gone)
        decreases |keys|
      {
        var k :| k in keys;
        db.RemoveEntry(k);
        RemoveStep(was.entries, gone, k);
        TakeOne(removes, keys, k);
        keys, gone := keys - {k}, gone + {k};
      }
    }

    method ApplyEntriesToDatabase(db: Database<K, V, W>)
      modifies db
      ensures db.tables == old(db.tables).(entries := (old(db.tables.entries) - removes) + entries)
    {
      RemoveEntriesFromDatabase(db);
      ghost var cleared := db.tables;
      var items := entries.Keys;
      OnlyEnds(cleared.entries, entries);
      SetEnds(entries.Keys);
      while items != {}
        invariant items <= entries.Keys
        invariant db.tables == cleared.(entries := cleared.entries + Only(entries, entries.Keys - items))
        decreases |items|
      {
        var k :| k in items;
        db.tables := db.tables.(entries := db.tables.entries[k := entries[k]]);
        StoreStep(cleared.entries, entries, entries.Keys - items, k);
        TakeOne(entries.Keys, items, k);
        items := items - {k};
      }
    }

    method RemoveStoragesFromDatabase(db: Database<K, V, W>)
      modifies db
      ensures db.tables == old(db.tables).(storages := old(db.tables.storages) - removes)
    {
      var keys := removes;
      ghost var was, gone := db.tables, {};
      RemoveNothing(was.storages);
      while keys != {}
        invariant keys <= removes && gone == removes - keys
        invariant db.tables == was.(storages := was.storages - gone)
        decreases |keys|
      {
        var k :| k in keys;
        db.RemoveStorage(k);
        RemoveStep(was.storages, gone, k);
        TakeOne(removes, keys, k);
        keys, gone := keys - {k}, gone + {k};
      }
    }

    method ApplyStoragesToDatabase(db: Database<K, V, W>)
      modifies db
      ensures db.tables == old(db.tables).(storages := (old(db.tables.storages) - removes) + storages)
    {
      RemoveStoragesFromDatabase(db);
      ghost var cleared := db.tables;
      var items := storages.Keys;
      OnlyEnds(cleared.storages, storages);
      SetEnds(storages.Keys);
      while items != {}
        invariant items <= storages.Keys
        invariant db.tables == cleared.(storages := cleared.storages + Only(storages, storages.Keys - items))
        decreases |items|
      {
        var k :| k in items;
        db.tables := db.tables.(storages := db.tables.storages[k := storages[k]]);
        StoreStep(cleared.storages, storages, storages.Keys - items, k);
        TakeOne(storages.Keys, items, k);
        items := items - {k};
      }
    }

    method RemoveEntriesFromLayer(p: PendingState<K, V, W>)
      requires p != this && p.Valid()
      modifies p`entries, p`removes
      ensures p.Own() == Removed(old(p.Own()), old(p.Base()), removes)
    {
      var keys := removes;
      ghost var was, base, gone := p.Own(), p.Base(), {};
      RemovedNothing(was, base);
      while keys != {}
        invariant keys <= removes && gone == removes - keys
        invariant p.Valid() && p.Base() == base
        invariant p.Own() == Removed(was, base, gone)
        decreases |keys|
      {
        var k :| k in keys;
        RemovedStep(was, base, gone, k);
        p.RemoveEntry(k);
        TakeOne(removes, keys, k);
        keys, gone := keys - {k}, gone + {k};
      }
    }

    method ApplyEntriesToLayer(p: PendingState<K, V, W>)
      requires p != this && p.Valid()
      modifies p`entries, p`removes
      ensures p.Own() == Merged(Own(), old(p.Own()), old(p.Base())).(storages := old(p.storages))
    {
      RemoveEntriesFromLayer(p);
      ghost var cleared := p.Own();
      var items := entries.Keys;
      ghost var done := {};
      OnlyEnds(cleared.entries, entries);
      SetEnds(entries.Keys);
      assert cleared.removes - {} == cleared.removes;
      while items != {}
        invariant items <= entries.Keys && done == entries.Keys - items
        invariant p.storages == old(p.storages)
        invariant p.entries == cleared.entries + Only(entries, done)
        invariant p.removes == cleared.removes - done
        decreases |items|
      {
        var k :| k in items;
        p.StoreEntry(k, entries[k]);
        StoreStep(cleared.entries, entries, done, k);
        TakeOne(entries.Keys, items, k);
        assert cleared.removes - done - {k} == cleared.removes - (done + {k});
        items, done := items - {k}, done + {k};
      }
    }

    method RemoveStoragesFromLayer(p: PendingState<K, V, W>)
      requires p != this && p.Valid()
      modifies p`storages
      ensures p.storages == old(p.storages) - removes
    {
      var keys := removes;
      ghost var was, gone := p.storages, {};
      RemoveNothing(was);
      while keys != {}
        invariant p.Valid() && keys <= removes && gone == removes - keys
        invariant p.storages == was - gone
        decreases |keys|
      {
        var k :| k in keys;
        p.RemoveStorage(k);
        RemoveStep(was, gone, k);
        TakeOne(removes, keys, k);
        keys, gone := keys - {k}, gone + {k};
      }
    }

    method ApplyStoragesToLayer(p: PendingState<K, V, W>)
      requires p != this && p.Valid()
      modifies p`storages
      ensures p.storages == (old(p.storages) - removes) + storages
    {
      RemoveStoragesFromLayer(p);
      ghost var cleared := p.storages;
      var items := storages.Keys;
      OnlyEnds(cleared, storages);
      SetEnds(storages.Keys);
      while items != {}
        invariant items <= storages.Keys
        invariant p.storages == cleared + Only(storages, storages.Keys - items)
        decreases |items|
      {
        var k :| k in items;
        p.StoreStorage(k, storages[k]);
        StoreStep(cleared, storages, storages.Keys - items, k);
        TakeOne(storages.Keys, items, k);
        items := items - {k};
      }
    }

    /** Applies the layer to whatever lies below. On the database the tables become
        what was seen through the layer; on another layer, that layer becomes the
        merge of the two. */
    method ApplyChanges()
      requires Valid()
      modifies if prev.Root? then {prev.db} else {}
      modifies if prev.Over? then {prev.pending} else {}
      ensures Valid() && prev == old(prev) && Own() == old(Own())
      ensures prev.Root? ==> prev.db.tables == old(Seen())
      ensures prev.Over? ==>
                && prev.pending.Valid()
                && prev.pending.Base() == old(prev.pending.Base())
                && prev.pending.Own() == Merged(Own(), old(prev.pending.Own()), old(prev.pending.Base()))
    {
      match prev
      case Nothing =>
      case Root(db) =>
        ApplyEntriesToDatabase(db);
        ApplyStoragesToDatabase(db);
      case Over(p) =>
        ApplyEntriesToLayer(p);
        ApplyStoragesToLayer(p);
    }

    //  Building the undo state

    method LookupEntryBelow(k: K) returns (r: Option<V>)
      requires Valid()
      ensures r == Get(Base().entries, k)
    {
      match prev
      case Nothing => r := None;
      case Root(db) => r := Get(db.tables.entries, k);
      case Over(p) => r := p.LookupEntry(k);
    }

    method LookupStorageBelow(k: K) returns (r: Option<W>)
      requires Valid()
      ensures r == Get(Base().storages, k)
    {
      match prev
      case Nothing => r := None;
      case Root(db) => r := Get(db.tables.storages, k);
      case Over(p) => r := p.LookupStorage(k);
    }

    method UndoRemovedEntry(undo: PendingState<K, V, W>, k: K)
      requires Valid() && undo.Valid() && undo.prev == Over(this)
      requires k !in undo.removes
      modifies undo`entries, undo`removes
      ensures Valid() && undo.Valid() && Base() == old(Base())
      ensures undo.entries == if k in Base().entries then old(undo.entries)[k := Base().entries[k]] else old(undo.entries)
      ensures undo.removes == old(undo.removes)
    {
      var found := LookupEntryBelow(k);
      if found.Some? {
        undo.StoreEntry(k, found.value);
      }
    }

    method UndoRemovedEntries(undo: PendingState<K, V, W>)
      requires Valid() && undo.Valid() && undo.prev == Over(this)
      requires undo.entries == map[] && undo.removes == {}
      modifies undo`entries, undo`removes
      ensures Base() == old(Base())
      ensures undo.entries == Only(Base().entries, removes) && undo.removes == {}
    {
      var keys := removes;
      ghost var base, done := Base(), {};
      OnlyEnds(base.entries, map[]);
      SetEnds(removes);
      while keys != {}
        invariant keys <= removes && done == removes - keys
        invariant Valid() && undo.Valid() && Base() == base
        invariant undo.entries == Only(base.entries, done) && undo.removes == {}
        decreases |keys|
      {
        var k :| k in keys;
        OnlyStep(base.entries, done, k);
        TakeOne(removes, keys, k);
        UndoRemovedEntry(undo, k);
        keys, done := keys - {k}, done + {k};
      }
    }

    /** Removes an entry of this layer through the undo layer above it. */
    method RemoveEntryAbove(undo: PendingState<K, V, W>, k: K)
      requires Valid() && undo.Valid() && undo.prev == Over(this)
      requires k in entries && k !in undo.removes && k !in undo.entries
      modifies undo`entries, undo`removes
      ensures Valid() && undo.Valid() && Base() == old(Base())
      ensures undo.entries == old(undo.entries) && undo.removes == old(undo.removes) + {k}
    {
      assert k in Seen().entries;
      undo.RemoveEntry(k);
    }

    method UndoStoredEntry(undo: PendingState<K, V, W>, k: K)
      requires Valid() && undo.Valid() && undo.prev == Over(this)
      requires k in entries && k !in undo.removes && (k in undo.entries ==> k in Base().entries)
      modifies undo`entries, undo`removes
      ensures Valid() && undo.Valid() && Base() == old(Base())
      ensures undo.entries == if k in Base().entries then old(undo.entries)[k := Base().entries[k]] else old(undo.entries)
      ensures undo.removes == if k in Base().entries then old(undo.removes) else old(undo.removes) + {k}
    {
      var found := LookupEntryBelow(k);
      if found.Some? {
        undo.StoreEntry(k, found.value);
      } else {
        RemoveEntryAbove(undo, k);
      }
    }

    method UndoStoredEntries(undo: PendingState<K, V, W>)
      requires Valid() && undo.Valid() && undo.prev == Over(this)
      requires undo.entries == Only(Base().entries, removes) && undo.removes == {}
      modifies undo`entries, undo`removes
      ensures Base() == old(Base())
      ensures undo.entries == Undo(Own(), Base()).entries && undo.removes == Undo(Own(), Base()).removes
    {
      var keys := entries.Keys;
      ghost var base, done := Base(), {};
      SetEnds(removes);
      SetEnds(entries.Keys);
      while keys != {}
        invariant keys <= entries.Keys && done == entries.Keys - keys
        invariant Valid() && undo.Valid() && Base() == base
        invariant undo.entries == Only(base.entries, removes + done)
        invariant undo.removes == done - base.entries.Keys
        decreases |keys|
      {
        var k :| k in keys;
        UndoneStep(base.entries, removes, done, k);
        TakeOne(entries.Keys, keys, k);
        UndoStoredEntry(undo, k);
        keys, done := keys - {k}, done + {k};
      }
    }

    method UndoRemovedStorage(undo: PendingState<K, V, W>, k: K)
      requires Valid() && undo.Valid() && undo.prev == Over(this)
      modifies undo`storages
      ensures Valid() && undo.Valid() && Base() == old(Base())
      ensures undo.storages == if k in Base().storages then old(undo.storages)[k := Base().storages[k]] else old(undo.storages)
    {
      var found := LookupStorageBelow(k);
      if found.Some? {
        undo.StoreStorage(k, found.value);
      }
    }

    method UndoRemovedStorages(undo: PendingState<K, V, W>)
      requires Valid() && undo.Valid() && undo.prev == Over(this)
      requires undo.storages == map[]
      modifies undo`storages
      ensures Base() == old(Base())
      ensures undo.storages == Only(Base().storages, removes)
    {
      ghost var base, done := Base(), {};
      OnlyEnds(base.storages, map[]);
      SetEnds(removes);
      var keys := removes;
      while keys != {}
        invariant keys <= removes && done == removes - keys
        invariant Valid() && undo.Valid() && Base() == base
        invariant undo.storages == Only(base.storages, done)
        decreases |keys|
      {
        var k :| k in keys;
        OnlyStep(base.storages, done, k);
        TakeOne(removes, keys, k);
        UndoRemovedStorage(undo, k);
        keys, done := keys - {k}, done + {k};
      }
    }

    method UndoStoredStorage(undo: PendingState<K, V, W>, k: K)
      requires Valid() && undo.Valid() && undo.prev == Over(this)
      requires k in undo.storages ==> k in Base().storages
      modifies undo`storages
      ensures Valid() && undo.Valid() && Base() == old(Base())
      ensures undo.storages == if k in Base().storages then old(undo.storages)[k := Base().storages[k]] else old(undo.storages)
    {
      var found := LookupStorageBelow(k);
      if found.Some? {
        undo.StoreStorage(k, found.value);
      } else {
        undo.RemoveStorage(k);
      }
    }

    method UndoStoredStorages(undo: PendingState<K, V, W>)
      requires Valid() && undo.Valid() && undo.prev == Over(this)
      requires undo.storages == Only(Base().storages, removes)
      modifies undo`storages
      ensures Base() == old(Base())
      ensures undo.storages == Undo(Own(), Base()).storages
    {
      ghost var base, done := Base(), {};
      var keys := storages.Keys;
      SetEnds(removes);
      SetEnds(storages.Keys);
      while keys != {}
        invariant keys <= storages.Keys && done == storages.Keys - keys
        invariant Valid() && undo.Valid() && Base() == base
        invariant undo.storages == Only(base.storages, removes + done)
        decreases |keys|
      {
        var k :| k in keys;
        UndoneStep(base.storages, removes, done, k);
        TakeOne(storages.Keys, keys, k);
        UndoStoredStorage(undo, k);
        keys, done := keys - {k}, done + {k};
      }
    }

    /** Fills a fresh layer over this one with what takes this one back; refused when
        there is nothing below. */
    method GetUndoState(undo: PendingState<K, V, W>) returns (ok: bool)
      requires Valid() && undo.Valid() && undo.prev == Over(this)
      requires undo.Own() == Change(map[], map[], {})
      modifies undo`entries, undo`storages, undo`removes
      ensures ok <==> !prev.Nothing?
      ensures Base() == old(Base())
      ensures ok ==> undo.Own() == Undo(Own(), Base())
    {
      if prev.Nothing? { return false; }
      UndoRemovedEntries(undo);
      UndoStoredEntries(undo);
      UndoRemovedStorages(undo);
      UndoStoredStorages(undo);
      ok := true;
    }
  }
}
