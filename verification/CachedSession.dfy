/** The session's cached operations as code, over a cacher and a database, each equal to its
    function in CacheProtocol. */
module CachedSession {
  import opened Utils
  import opened Values
  import Spec = LruSpec
  import opened LruCacher
  import opened CacheProtocol

  class Session {
    const eng: Engine
    const cacher: LRUCacher
    /** The database behind the session. */
    var tables: map<string, Table>

    ghost predicate Valid()
      reads this, cacher, cacher.store, cacher.idList, cacher.sqlList
    { cacher.Valid() && cacher.cfg == eng.cfg }

    ghost function Now(): World
      reads this, cacher
    { World(tables, cacher.contents) }

    /** List elements are the old ones or new ones. */
    twostate predicate Grown()
      reads cacher
    {
      && (forall e :: e in cacher.idList ==> e in old(cacher.idList) || fresh(e))
      && (forall e :: e in cacher.sqlList ==> e in old(cacher.sqlList) || fresh(e))
    }

    constructor (eng: Engine, tables: map<string, Table>)
      ensures Valid() && fresh(cacher) && fresh(cacher.store) && cacher.idList == cacher.sqlList == []
      ensures Now() == World(tables, Spec.EMPTY) && this.eng == eng
    {
      this.eng := eng;
      this.tables := tables;
      cacher := new LRUCacher(eng.cfg);
    }

    // ----- Get -----

    /** GetCacheSql, else the database's ids cut to the first row, kept with PutCacheSql. */
    method IdsForGet(q: Query, now: int) returns (ids: Option<seq<PK>>)
      requires Valid()
      modifies cacher, cacher.store, set e | e in cacher.sqlList
      ensures Valid() && Grown()
      ensures (cacher.contents, ids) == GetIdsForGet(eng, old(Now()), q, now)
    {
      hide Linked, Mirrors, Spec.GetIds, Spec.PutIds;
      var cached := cacher.GetIds(q.table, q.key, now);
      if cached.Some? {
        return if cached.value.Ids? then Some(cached.value.ids) else None;
      }
      var selected := Select(eng, World(tables, Spec.EMPTY), q);
      if selected == [] {
        return None;
      }
      cacher.PutIds(q.table, q.key, Ids(selected[..1]), now);
      return Some(selected[..1]);
    }

    method CacheGet(q: Query, kind: string, now: int) returns (reply: GetReply)
      requires Valid()
      modifies cacher, cacher.store, set e | e in cacher.idList || e in cacher.sqlList
      ensures Valid() && Grown()
      ensures (Now(), reply) == CacheProtocol.CacheGet(eng, old(Now()), q, kind, now)
    {
      hide Linked, Mirrors, Spec.GetBean, Spec.PutBean, GetIdsForGet, PlainGet;
      if !CanCache(q) {
        return GetCacheFailed;
      }
      var ids := IdsForGet(q, now);
      if ids == None {
        return GetCacheFailed;
      }
      if |ids.value| > 0 {
        var bean := cacher.GetBean(q.table, ids.value[0], now);
        if bean == None {
          SameTables(q);
          var row := PlainGet(eng, World(tables, Spec.EMPTY), q);
          if row == None {
            return Got(None);
          }
          cacher.PutBean(q.table, ids.value[0], Bean(kind, row.value), now);
          return Got(row);
        }
        return if bean.value.Bean? && bean.value.kind == kind then Got(Some(bean.value.row)) else GetPanic;
      }
      return Got(None);
    }

    /** Plain queries look at the tables only. */
    twostate lemma SameTables(q: Query)
      requires tables == old(tables)
      ensures PlainGet(eng, World(tables, Spec.EMPTY), q) == PlainGet(eng, old(Now()), q)
      ensures PlainFind(eng, World(tables, Spec.EMPTY), q) == PlainFind(eng, old(Now()), q)
    {}

    method Get(given: Query, kind: string, now: int) returns (reply: GetReply)
      requires Valid()
      modifies cacher, cacher.store, set e | e in cacher.idList || e in cacher.sqlList
      ensures Valid() && Grown()
      ensures (Now(), reply) == CacheProtocol.Get(eng, old(Now()), given, kind, now)
    {
      var q := given;
      if !q.raw { q := q.(key := eng.limit1(q.key)); }
      reply := CacheGet(q, kind, now);
      if reply == GetCacheFailed {
        reply := Got(PlainGet(eng, World(tables, Spec.EMPTY), q));
      }
    }

    // ----- Find -----

    method IdsForFind(q: Query, now: int) returns (ids: Option<seq<PK>>)
      requires Valid()
      modifies cacher, cacher.store, set e | e in cacher.sqlList
      ensures Valid() && Grown()
      ensures (cacher.contents, ids) == GetIdsForFind(eng, old(Now()), q, now)
    {
      hide Linked, Mirrors, Spec.GetIds, Spec.PutIds;
      var cached := cacher.GetIds(q.table, q.key, now);
      if cached.Some? {
        return if cached.value.Ids? then Some(cached.value.ids) else None;
      }
      var selected := Select(eng, World(tables, Spec.EMPTY), q);
      if |selected| > MAX_CACHED_IDS {
        return None;
      }
      cacher.PutIds(q.table, q.key, Ids(selected), now);
      return Some(selected);
    }

    /** The hit loop: beans into `temps`, positions of misses into `ididxes`. */
    method ProbeBeans(table: string, ids: seq<PK>, kind: string, now: int)
      returns (ok: bool, temps: seq<Option<Row>>, ididxes: map<PK, nat>)
      requires Valid()
      modifies cacher, cacher.store, set e | e in cacher.idList
      ensures Valid() && Grown() && (ids != [] ==> table in cacher.idIndex)
      ensures
        var p := Probe(eng, old(cacher.contents), table, ids, kind, now);
        if ok then p == Probed(cacher.contents, temps) && ididxes == MissIndex(ids, temps)
        else p == ProbeFailed(cacher.contents)
    {
      hide Linked, Mirrors, Spec.GetBean, Probe, MissIndex;
      ghost var c := cacher.contents;
      NothingProbed(c, table, kind, now);
      ididxes, temps, ok := map[], [], true;
      var idx := 0;
      while idx < |ids|
        invariant 0 <= idx <= |ids| && |temps| == idx && ok
        invariant Valid() && Grown()
        invariant idx > 0 ==> table in cacher.idIndex
        invariant Probe(eng, c, table, ids[..idx], kind, now) == Probed(cacher.contents, temps)
        invariant ididxes == MissIndex(ids[..idx], temps)
      {
        var id := ids[idx];
        var bean := cacher.GetBean(table, id, now);
        ProbeStep(c, table, ids, idx, kind, now);
        if bean == None || !bean.value.Bean? || bean.value.kind != kind {
          MissOne(ids, idx, temps);
          temps := temps + [None];
          ididxes := ididxes[id := idx];
        } else if bean.value.row.pk != id {
          ProbeStaysFailed(c, table, ids, idx + 1, kind, now);
          ok := false;
          return;
        } else {
          HitOne(ids, idx, temps, bean.value.row);
          temps := temps + [Some(bean.value.row)];
        }
        idx := idx + 1;
      }
      assert ids[..idx] == ids;
    }

    lemma NothingProbed(c: Spec.Cache, table: string, kind: string, now: int)
      ensures Probe(eng, c, table, [], kind, now) == Probed(c, []) && MissIndex([], []) == map[]
    {}

    lemma ProbeStep(c: Spec.Cache, table: string, ids: seq<PK>, n: nat, kind: string, now: int)
      requires n < |ids| && Probe(eng, c, table, ids[..n], kind, now).Probed?
      ensures
        var p := Probe(eng, c, table, ids[..n], kind, now);
        var (c2, bean) := Spec.GetBean(p.cache, eng.cfg, table, ids[n], now);
        Probe(eng, c, table, ids[..n + 1], kind, now) ==
        if bean.None? || !bean.value.Bean? || bean.value.kind != kind then Probed(c2, p.slots + [None])
        else if bean.value.row.pk != ids[n] then ProbeFailed(c2)
        else Probed(c2, p.slots + [Some(bean.value.row)])
    {
      assert ids[..n + 1][..n] == ids[..n];
    }

    lemma MissOne(ids: seq<PK>, n: nat, slots: seq<Option<Row>>)
      requires n < |ids| && |slots| == n
      ensures MissIndex(ids[..n + 1], slots + [None]) == MissIndex(ids[..n], slots)[ids[n] := n]
    {
      hide MissIndex;
      MissIndexLast(ids[..n + 1], slots + [None]);
      FrontAndLast(ids, n, slots, None);
    }

    lemma HitOne(ids: seq<PK>, n: nat, slots: seq<Option<Row>>, row: Row)
      requires n < |ids| && |slots| == n
      ensures MissIndex(ids[..n + 1], slots + [Some(row)]) == MissIndex(ids[..n], slots)
    {
      hide MissIndex;
      MissIndexLast(ids[..n + 1], slots + [Some(row)]);
      FrontAndLast(ids, n, slots, Some(row));
    }

    lemma FrontAndLast(ids: seq<PK>, n: nat, slots: seq<Option<Row>>, slot: Option<Row>)
      requires n < |ids| && |slots| == n
      ensures ids[..n + 1][..n] == ids[..n] && ids[..n + 1][n] == ids[n]
      ensures (slots + [slot])[..n] == slots && (slots + [slot])[n] == slot
    {}

    lemma MissIndexLast(ids: seq<PK>, slots: seq<Option<Row>>)
      requires ids != [] && |slots| == |ids|
      ensures
        var n := |ids| - 1;
        MissIndex(ids, slots) ==
        if slots[n].None? then MissIndex(ids[..n], slots[..n])[ids[n] := n] else MissIndex(ids[..n], slots[..n])
    {}

    /** The refill loop: fetched rows into their slots and into the cache. */
    method RefillBeans(table: string, slots: seq<Option<Row>>, ididxes: map<PK, nat>, batch: seq<Row>, kind: string, now: int)
      returns (temps: seq<Option<Row>>)
      requires Valid() && (batch != [] ==> table in cacher.idIndex)
      modifies cacher, cacher.store, set e | e in cacher.idList
      ensures Valid() && Grown()
      ensures (cacher.contents, temps) == Refill(eng, old(cacher.contents), table, slots, ididxes, batch, kind, now)
    {
      hide Linked, Mirrors, Spec.PutBean;
      ghost var c := cacher.contents;
      temps := slots;
      var i := 0;
      while i < |batch|
        invariant 0 <= i <= |batch|
        invariant Valid() && Grown() && (batch != [] ==> table in cacher.idIndex)
        invariant Refill(eng, c, table, slots, ididxes, batch[..i], kind, now) == (cacher.contents, temps)
      {
        var row := batch[i];
        var slot := if row.pk in ididxes then ididxes[row.pk] else 0;
        if slot < |temps| {
          temps := temps[slot := Some(row)];
        }
        cacher.PutBean(table, row.pk, Bean(kind, row), now);
        assert batch[..i + 1][..i] == batch[..i];
        i := i + 1;
      }
      assert batch[..i] == batch;
    }

    /** The final loop appends the beans that were found. */
    static method Assemble(temps: seq<Option<Row>>) returns (rows: seq<Row>)
      ensures rows == Present(temps)
    {
      rows := [];
      var j := 0;
      while j < |temps|
        invariant 0 <= j <= |temps| && rows == Present(temps[..j])
      {
        assert temps[..j + 1][..j] == temps[..j];
        if temps[j].Some? {
          rows := rows + [temps[j].value];
        }
        j := j + 1;
      }
      assert temps[..j] == temps;
    }

    static lemma NoMissNoBatch(ids: seq<PK>, slots: seq<Option<Row>>, rows: Table, order: set<PK> -> seq<PK>)
      requires |slots| == |ids|
      ensures Batch(rows, MissIndex(ids, slots).Keys, order) != [] ==> ids != []
    {}

    method CacheFind(q: Query, kind: string, order: set<PK> -> seq<PK>, now: int) returns (reply: FindReply)
      requires Valid()
      modifies cacher, cacher.store, set e | e in cacher.idList || e in cacher.sqlList
      ensures Valid() && Grown()
      ensures (Now(), reply) == CacheProtocol.CacheFind(eng, old(Now()), q, kind, order, now)
    {
      hide Linked, Mirrors, GetIdsForFind, Probe, Refill, Present, MissIndex, Batch;
      if !CanCache(q) {
        return FindCacheFailed;
      }
      var ids := IdsForFind(q, now);
      if ids == None {
        return FindCacheFailed;
      }
      var ok, slots, ididxes := ProbeBeans(q.table, ids.value, kind, now);
      if !ok {
        return FindCacheFailed;
      }
      var batch := Batch(Rows(World(tables, Spec.EMPTY), q.table), ididxes.Keys, order);
      NoMissNoBatch(ids.value, slots, Rows(World(tables, Spec.EMPTY), q.table), order);
      assert Rows(old(Now()), q.table) == Rows(World(tables, Spec.EMPTY), q.table);
      var temps := RefillBeans(q.table, slots, ididxes, batch, kind, now);
      var rows := Assemble(temps);
      return Listed(rows);
    }

    lemma {:induction false} ProbeStaysFailed(c: Spec.Cache, table: string, ids: seq<PK>, n: nat, kind: string, now: int)
      requires n <= |ids| && Probe(eng, c, table, ids[..n], kind, now).ProbeFailed?
      ensures Probe(eng, c, table, ids, kind, now) == Probe(eng, c, table, ids[..n], kind, now)
    {
      if n < |ids| {
        assert ids[..|ids| - 1][..n] == ids[..n];
        ProbeStaysFailed(c, table, ids[..|ids| - 1], n, kind, now);
      } else {
        assert ids[..n] == ids;
      }
    }

    method Find(q: Query, kind: string, order: set<PK> -> seq<PK>, now: int) returns (reply: FindReply)
      requires Valid()
      modifies cacher, cacher.store, set e | e in cacher.idList || e in cacher.sqlList
      ensures Valid() && Grown()
      ensures (Now(), reply) == CacheProtocol.Find(eng, old(Now()), q, kind, order, now)
    {
      reply := CacheFind(q, kind, order, now);
      if reply == FindCacheFailed {
        reply := Listed(PlainFind(eng, World(tables, Spec.EMPTY), q));
      }
    }

    // ----- Insert, Update, Delete -----

    method Insert(table: string, added: Table)
      requires Valid()
      modifies this, cacher, cacher.store
      ensures Valid() && Grown()
      ensures Now() == CacheProtocol.Insert(old(Now()), table, added)
    {
      var rows := Rows(World(tables, Spec.EMPTY), table);
      if !(added.Keys !! rows.Keys) {
        return;
      }
      tables := tables[table := rows + added];
      cacher.ClearIds(table);
    }

    method Update(table: string, change: Table -> Table)
      requires Valid()
      modifies this, cacher, cacher.store
      ensures Valid() && Grown()
      ensures Now() == CacheProtocol.Update(old(Now()), table, change)
    {
      tables := tables[table := change(Rows(World(tables, Spec.EMPTY), table))];
      cacher.ClearIds(table);
      cacher.ClearBeans(table);
    }

    method DelEach(table: string, ids: seq<PK>)
      requires Valid()
      modifies cacher, cacher.store
      ensures Valid() && Grown()
      ensures cacher.contents == DelBeans(old(cacher.contents), table, ids)
    {
      hide Linked, Mirrors, Spec.DelBean;
      var i := 0;
      while i < |ids|
        invariant 0 <= i <= |ids|
        invariant Valid() && Grown()
        invariant cacher.contents == DelBeans(old(cacher.contents), table, ids[..i])
      {
        cacher.DelBean(table, ids[i]);
        assert ids[..i + 1][..i] == ids[..i];
        i := i + 1;
      }
      assert ids[..i] == ids;
    }

    method CacheDelete(q: Query, guarded: bool, now: int)
      requires Valid()
      modifies cacher, cacher.store, set e | e in cacher.sqlList
      ensures Valid() && Grown()
      ensures cacher.contents == CacheProtocol.CacheDelete(eng, old(Now()), q, guarded, now)
    {
      hide Linked, Mirrors, Spec.GetIds, Spec.ClearIds, DelBeans;
      if !guarded || !q.cacheable {
        return;
      }
      var ids: seq<PK>;
      var cached := cacher.GetIds(q.table, q.key, now);
      if cached.Some? && cached.value.Ids? {
        ids := cached.value.ids;
      } else {
        ids := Select(eng, World(tables, Spec.EMPTY), q);
      }
      DelEach(q.table, ids);
      cacher.ClearIds(q.table);
    }

    /** The invalidation comes first, and its refusal does not stop the DELETE. */
    method Delete(q: Query, guarded: bool, now: int)
      requires Valid()
      modifies this, cacher, cacher.store, set e | e in cacher.sqlList
      ensures Valid() && Grown()
      ensures Now() == CacheProtocol.Delete(eng, old(Now()), q, guarded, now)
    {
      CacheDelete(q, guarded, now);
      var rows := Rows(World(tables, Spec.EMPTY), q.table);
      tables := tables[q.table := rows - eng.victims(q.key, rows)];
    }
  }
}
