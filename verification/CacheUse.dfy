/** What the cache is for: a query that has been answered is answered again without the database. */
module CacheUse {
  import opened Utils
  import opened Values
  import opened LruSpec
  import opened LruInvariant
  import opened LruOrder
  import opened LruVisits
  import opened CacheProtocol
  import opened Coherence

  // ----- entries that will be found -----

  ghost predicate ListCached(c: Cache, t: string, key: string, ids: seq<PK>, at: int) {
    Distinct(c.sqls) && Node(t, key, at) in c.sqls && key in c.store && c.store[key] == Ids(ids)
  }

  ghost predicate BeanCached(c: Cache, t: string, id: PK, v: Value, at: int) {
    Distinct(c.ids) && Node(t, id, at) in c.ids && GenID(t, id) in c.store && c.store[GenID(t, id)] == v
  }

  lemma LookupIs(l: seq<Node>, n: Node)
    requires Distinct(l) && n in l
    ensures Name(n) in Names(l) && Lookup(l, n.table, n.key) == n
  {
    assert Name(n) in Names(l);
    var m := Lookup(l, n.table, n.key);
    var i :| 0 <= i < |l| && l[i] == n;
    var j :| 0 <= j < |l| && l[j] == m;
    assert Name(l[i]) == Name(l[j]);
  }

  lemma MovedKeeps(l: seq<Node>, t: string, key: string, now: int)
    requires Distinct(l) && (t, key) in Names(l)
    ensures
      var r := MoveToBack(l, t, key, now);
      && Distinct(r) && Names(r) == Names(l) && |r| == |l| && Node(t, key, now) in r
      && (forall n :: n in l && Name(n) != (t, key) ==> n in r)
      && (forall n :: n in r ==> n == Node(t, key, now) || n in l)
  {
    MoveToBackNames(l, t, key, now);
    WithoutMember(l, {(t, key)});
    WithoutOne(l, t, key);
    var r := MoveToBack(l, t, key, now);
    assert r[|r| - 1] == Node(t, key, now);
  }

  lemma HitIds(c: Cache, cfg: Config, t: string, key: string, ids: seq<PK>, at: int, now: int)
    requires ListCached(c, t, key, ids, at) && now - at <= cfg.expired
    ensures
      var (c', r) := GetIds(c, cfg, t, key, now);
      r == Some(Ids(ids)) && c'.ids == c.ids && c'.store == c.store && ListCached(c', t, key, ids, now)
  {
    LookupIs(c.sqls, Node(t, key, at));
    MovedKeeps(c.sqls, t, key, now);
    hide Names, MoveToBack, Distinct;
  }

  lemma HitBean(c: Cache, cfg: Config, t: string, id: PK, v: Value, at: int, now: int)
    requires BeanCached(c, t, id, v, at) && now - at <= cfg.expired
    ensures
      var (c', r) := GetBean(c, cfg, t, id, now);
      && r == Some(v) && c'.sqls == c.sqls && c'.store == c.store && BeanCached(c', t, id, v, now)
      && Names(c'.ids) == Names(c.ids) && |c'.ids| == |c.ids|
      && (forall n :: n in c.ids && Name(n) != (t, id) ==> n in c'.ids)
      && (forall n :: n in c'.ids ==> n == Node(t, id, now) || n in c.ids)
  {
    LookupIs(c.ids, Node(t, id, at));
    MovedKeeps(c.ids, t, id, now);
    hide MoveToBack, Distinct;
  }

  lemma MissBean(c: Cache, cfg: Config, t: string, id: PK, now: int)
    requires (t, id) !in Names(c.ids) && GenID(t, id) !in c.store
    ensures GetBean(c, cfg, t, id, now) == (c, None)
  {
    assert c.store - {GenID(t, id)} == c.store;
  }

  lemma PutBeanWithRoom(c: Cache, cfg: Config, t: string, id: PK, v: Value, now: int)
    requires Distinct(c.ids) && (t, id) !in Names(c.ids) && |c.ids| < cfg.maxElementSize
    ensures PutBean(c, cfg, t, id, v, now) == c.(ids := c.ids + [Node(t, id, now)], store := c.store[GenID(t, id) := v])
    ensures Distinct(c.ids + [Node(t, id, now)]) && Names(c.ids + [Node(t, id, now)]) == Names(c.ids) + {(t, id)}
  {
    EnterNames(c.ids, t, id, now);
  }

  lemma PutIdsWithRoom(c: Cache, cfg: Config, t: string, key: string, ids: seq<PK>, now: int)
    requires Distinct(c.sqls) && (t, key) !in Names(c.sqls) && |c.sqls| < cfg.maxElementSize
    ensures
      var c' := PutIds(c, cfg, t, key, Ids(ids), now);
      c'.ids == c.ids && ListCached(c', t, key, ids, now) && c'.store == c.store[key := Ids(ids)]
  {
    EnterNames(c.sqls, t, key, now);
    var l := c.sqls + [Node(t, key, now)];
    assert l[|l| - 1] == Node(t, key, now);
  }

  lemma GetIdsCases(c: Cache, cfg: Config, t: string, key: string, now: int)
    requires (t, key) in Names(c.sqls) <==> key in c.store
    ensures
      var (c', hit) := GetIds(c, cfg, t, key, now);
      if hit.Some? then (t, key) in Names(c.sqls) && hit.value == c.store[key] && c' == c.(sqls := MoveToBack(c.sqls, t, key, now))
      else c' == DelIds(c, t, key)
  {}

  lemma DelThenPut(c: Cache, cfg: Config, t: string, key: string, ids: seq<PK>, now: int)
    requires Distinct(c.sqls) && |c.sqls| < cfg.maxElementSize
    ensures
      var c' := PutIds(DelIds(c, t, key), cfg, t, key, Ids(ids), now);
      c'.ids == c.ids && ListCached(c', t, key, ids, now) && c'.store == c.store[key := Ids(ids)]
  {
    WithoutMember(c.sqls, {(t, key)});
    WithoutDistinct(c.sqls, {(t, key)});
    PutIdsWithRoom(DelIds(c, t, key), cfg, t, key, ids, now);
    assert (c.store - {key})[key := Ids(ids)] == c.store[key := Ids(ids)];
    hide PutIds, Without, Names, Distinct;
  }

  /** The id list of a query, fetched or found, is cached afterwards. */
  lemma IdsStay(eng: Engine, u: Universe, kindOf: string -> string, w: World, t: string, key: string, now: int)
    requires Good(eng, u, kindOf, w) && (t, key) in u.sqls && |w.cache.sqls| < eng.cfg.maxElementSize
    ensures
      var ids := eng.select(key, Rows(w, t));
      var (c, hit) := GetIds(w.cache, eng.cfg, t, key, now);
      var c' := if hit.Some? then c else PutIds(c, eng.cfg, t, key, Ids(ids), now);
      && c.ids == c'.ids == w.cache.ids && ListCached(c', t, key, ids, now) && c'.store == w.cache.store[key := Ids(ids)]
      && (hit.Some? ==> hit.value == Ids(ids))
  {
    var c0, ids := w.cache, eng.select(key, Rows(w, t));
    GetIdsGood(eng, u, kindOf, w, t, key, now);
    StoredIff(c0, eng.cfg, u, (t, key));
    assert (t, key).1 == key && Distinct(c0.sqls);
    hide GetIds, PutIds, Good, ListCached, DelIds;
    GetIdsCases(c0, eng.cfg, t, key, now);
    var (c, hit) := GetIds(c0, eng.cfg, t, key, now);
    if hit.Some? {
      MovedKeeps(c0.sqls, t, key, now);
      MovedIsCached(c0, t, key, ids, now);
    } else {
      DelIdsFewer(c0, t, key);
      DelThenPut(c0, eng.cfg, t, key, ids, now);
    }
  }

  lemma MovedIsCached(c: Cache, t: string, key: string, ids: seq<PK>, now: int)
    requires Distinct(c.sqls) && (t, key) in Names(c.sqls) && key in c.store && c.store[key] == Ids(ids)
    ensures ListCached(c.(sqls := MoveToBack(c.sqls, t, key, now)), t, key, ids, now) && c.store[key := Ids(ids)] == c.store
  {
    MovedKeeps(c.sqls, t, key, now);
  }

  // ----- Get -----

  /** The bean of a row, fetched or found, is cached afterwards, and the id list stays. */
  lemma BeanStays(eng: Engine, u: Universe, kindOf: string -> string, w: World, t: string, key: string, ids: seq<PK>,
                  id: PK, row: Row, now: int)
    requires Good(eng, u, kindOf, w) && CachedTable(u, t) && (t, key) in u.sqls && |w.cache.ids| < eng.cfg.maxElementSize
    requires ListCached(w.cache, t, key, ids, now) && id in Rows(w, t) && Rows(w, t)[id] == row
    requires forall n :: n in w.cache.ids && n.table == t ==> !IsExpired(n, now, eng.cfg)
    ensures
      var v := Bean(kindOf(t), row);
      var (c, bean) := GetBean(w.cache, eng.cfg, t, id, now);
      var c' := if bean.Some? then c else PutBean(c, eng.cfg, t, id, v, now);
      && (bean.Some? ==> bean.value == v)
      && BeanCached(c', t, id, v, now) && ListCached(c', t, key, ids, now)
  {
    var c0, v := w.cache, Bean(kindOf(t), row);
    StoredIff(c0, eng.cfg, u, (t, id));
    assert BeanKey((t, id)) == GenID(t, id) && (t, id) in u.beans && (t, key).1 == key;
    if (t, id) in Names(c0.ids) {
      var n := Lookup(c0.ids, t, id);
      assert n == Node(t, id, n.lastVisit);
      HitBean(c0, eng.cfg, t, id, v, n.lastVisit, now);
    } else {
      MissBean(c0, eng.cfg, t, id, now);
      PutBeanWithRoom(c0, eng.cfg, t, id, v, now);
      var l := c0.ids + [Node(t, id, now)];
      assert l[|l| - 1] == Node(t, id, now);
    }
    hide GetBean, PutBean, Names;
  }

  /** What a Get leaves behind that finds a row, in a cache with room for one more list and bean. */
  lemma GetFills(eng: Engine, u: Universe, kindOf: string -> string, w: World, q: Query, now: int)
    requires Good(eng, u, kindOf, w) && CanCache(q) && Usable(u, q) && SingleRow(eng, q) && Select(eng, w, q) != []
    requires |w.cache.sqls| < eng.cfg.maxElementSize && |w.cache.ids| < eng.cfg.maxElementSize
    requires forall n :: n in w.cache.ids && n.table == q.table ==> !IsExpired(n, now, eng.cfg)
    ensures
      var id := Select(eng, w, q)[0];
      var (after, reply) := CacheGet(eng, w, q, kindOf(q.table), now);
      && id in Rows(w, q.table) && reply == Got(Some(Rows(w, q.table)[id]))
      && ListCached(after.cache, q.table, q.key, [id], now)
      && BeanCached(after.cache, q.table, id, Bean(kindOf(q.table), Rows(w, q.table)[id]), now)
  {
    var t, ids := q.table, Select(eng, w, q);
    OneId(eng, w, q);
    IdsForGetIs(eng, u, kindOf, w, q, now);
    hide Good, ListCached, BeanCached, SingleRow, GetIdsForGet, Select, PlainGet, CacheGet, GetBean, PutBean;
    var c := GetIdsForGet(eng, w, q, now).0;
    GoodStays(eng, u, kindOf, w, q, now);
    SameRows(w, c, t);
    BeanStays(eng, u, kindOf, w.(cache := c), t, q.key, ids, ids[0], Rows(w, t)[ids[0]], now);
    CacheGetIs(eng, w, q, kindOf(t), c, ids[0], Rows(w, t)[ids[0]], now);
  }

  lemma SameRows(w: World, c: Cache, t: string)
    ensures Rows(w.(cache := c), t) == Rows(w, t)
  {}

  lemma OneId(eng: Engine, w: World, q: Query)
    requires SoundQueries(eng) && SingleRow(eng, q) && Select(eng, w, q) != []
    ensures
      var ids := Select(eng, w, q);
      && ids == [ids[0]] && ids[..1] == ids && ids[0] in Rows(w, q.table)
      && PlainGet(eng, w, q) == Some(Rows(w, q.table)[ids[0]])
  {
    var ids := Select(eng, w, q);
    assert |ids| <= 1 && ids[0] in eng.select(q.key, Rows(w, q.table));
    PlainGetRow(eng, w, q);
  }

  lemma IdsForGetIs(eng: Engine, u: Universe, kindOf: string -> string, w: World, q: Query, now: int)
    requires Good(eng, u, kindOf, w) && Usable(u, q) && SingleRow(eng, q) && Select(eng, w, q) != []
    requires |w.cache.sqls| < eng.cfg.maxElementSize
    ensures
      var (c, found) := GetIdsForGet(eng, w, q, now);
      var ids := Select(eng, w, q);
      found == Some(ids) && c.ids == w.cache.ids && ListCached(c, q.table, q.key, ids, now)
  {
    OneId(eng, w, q);
    IdsStay(eng, u, kindOf, w, q.table, q.key, now);
    hide Good, ListCached, SingleRow, GetIds, PutIds;
  }

  lemma GoodStays(eng: Engine, u: Universe, kindOf: string -> string, w: World, q: Query, now: int)
    requires Good(eng, u, kindOf, w) && Usable(u, q) && SingleRow(eng, q)
    ensures Good(eng, u, kindOf, w.(cache := GetIdsForGet(eng, w, q, now).0))
  {
    IdsForGetGood(eng, u, kindOf, w, q, now);
    hide Good, GetIdsForGet;
  }

  lemma CacheGetIs(eng: Engine, w: World, q: Query, kind: string, c: Cache, id: PK, row: Row, now: int)
    requires CanCache(q) && GetIdsForGet(eng, w, q, now) == (c, Some([id])) && PlainGet(eng, w, q) == Some(row)
    ensures
      var (c', bean) := GetBean(c, eng.cfg, q.table, id, now);
      && (bean == Some(Bean(kind, row)) ==> CacheGet(eng, w, q, kind, now) == (w.(cache := c'), Got(Some(row))))
      && (bean == None ==>
            CacheGet(eng, w, q, kind, now) == (w.(cache := PutBean(c', eng.cfg, q.table, id, Bean(kind, row), now)), Got(Some(row))))
  {
    hide GetIdsForGet, GetBean, PutBean, PlainGet;
  }

  lemma GetFromCache(eng: Engine, w: World, q: Query, kind: string, id: PK, row: Row, at: int, now: int)
    requires CanCache(q) && now - at <= eng.cfg.expired
    requires ListCached(w.cache, q.table, q.key, [id], at) && BeanCached(w.cache, q.table, id, Bean(kind, row), at)
    ensures CacheGet(eng, w, q, kind, now).1 == Got(Some(row))
  {
    HitIds(w.cache, eng.cfg, q.table, q.key, [id], at, now);
    var c := GetIds(w.cache, eng.cfg, q.table, q.key, now).0;
    HitBean(c, eng.cfg, q.table, id, Bean(kind, row), at, now);
    hide GetIds, GetBean;
  }

  /** For as long as entries live, the same Get gives the same reply, whatever happens to the tables
      behind the cache. */
  lemma GetThenGet(eng: Engine, u: Universe, kindOf: string -> string, w: World, given: Query, now: int,
                   tables: map<string, Table>, later: int)
    requires Good(eng, u, kindOf, w) && CanCache(given) && Usable(u, AsGet(eng, given))
    requires |w.cache.sqls| < eng.cfg.maxElementSize && |w.cache.ids| < eng.cfg.maxElementSize
    requires PlainGet(eng, w, given).Some? && later - now <= eng.cfg.expired
    requires forall n :: n in w.cache.ids && n.table == given.table ==> !IsExpired(n, now, eng.cfg)
    ensures
      var after := Get(eng, w, given, kindOf(given.table), now).0;
      Get(eng, World(tables, after.cache), given, kindOf(given.table), later).1 == Got(PlainGet(eng, w, given))
  {
    var q := AsGet(eng, given);
    CachedGetIsSingleRow(eng, given);
    LimitedGetIsFirst(eng, w, given);
    PlainGetRow(eng, w, q);
    GetFills(eng, u, kindOf, w, q, now);
    hide CacheGet, PlainGet, Good, ListCached, BeanCached;
    var id := Select(eng, w, q)[0];
    var after := CacheGet(eng, w, q, kindOf(q.table), now).0;
    GetFromCache(eng, World(tables, after.cache), q, kindOf(q.table), id, Rows(w, q.table)[id], now, later);
  }

  // ----- Find: the beans that are found -----

  /** What probing has left after the first `n` ids: each listed bean stands in its slot and is
      stamped, the others are missing, and nothing has gone. */
  ghost predicate ProbedSoFar(c0: Cache, c: Cache, rows: Table, t: string, ids: seq<PK>, slots: seq<Option<Row>>, n: nat, now: int)
    requires n <= |ids| && |slots| == n
  {
    && c.sqls == c0.sqls && c.store == c0.store && Distinct(c.ids) && Names(c.ids) == Names(c0.ids) && |c.ids| == |c0.ids|
    && (forall i :: 0 <= i < n ==>
          if (t, ids[i]) in Names(c0.ids) then slots[i] == PlainRow(rows, ids[i]) && Node(t, ids[i], now) in c.ids
          else slots[i] == None)
    && (forall m :: m in c.ids ==> m.lastVisit == now || m in c0.ids)
  }

  /** The cache holds the table's rows, unexpired, as beans of the one type, or not at all. */
  ghost predicate Holds(c: Cache, cfg: Config, rows: Table, t: string, ids: seq<PK>, kind: string, now: int) {
    && Distinct(c.ids)
    && (forall id :: id in ids ==> id in rows && ((t, id) in Names(c.ids) <==> GenID(t, id) in c.store))
    && (forall id :: id in ids && GenID(t, id) in c.store ==> c.store[GenID(t, id)] == Bean(kind, rows[id]))
    && (forall id :: id in rows ==> rows[id].pk == id)
    && (forall m :: m in c.ids && m.table == t ==> !IsExpired(m, now, cfg))
  }

  lemma GoodHolds(eng: Engine, u: Universe, kindOf: string -> string, w: World, t: string, ids: seq<PK>, now: int)
    requires Good(eng, u, kindOf, w) && CachedTable(u, t) && forall id :: id in ids ==> id in Rows(w, t)
    requires forall m :: m in w.cache.ids && m.table == t ==> !IsExpired(m, now, eng.cfg)
    ensures Holds(w.cache, eng.cfg, Rows(w, t), t, ids, kindOf(t), now)
  {
    forall id | id in ids
      ensures (t, id) in Names(w.cache.ids) <==> GenID(t, id) in w.cache.store
      ensures GenID(t, id) in w.cache.store ==> w.cache.store[GenID(t, id)] == Bean(kindOf(t), Rows(w, t)[id])
    {
      StoredIff(w.cache, eng.cfg, u, (t, id));
      assert BeanKey((t, id)) == GenID(t, id) && (t, id) in u.beans;
    }
    assert Keyed(Rows(w, t));
  }

  lemma ProbeNext(cfg: Config, c0: Cache, c: Cache, rows: Table, t: string, ids: seq<PK>, slots: seq<Option<Row>>,
                  n: nat, kind: string, now: int)
    requires n < |ids| && |slots| == n && Holds(c0, cfg, rows, t, ids, kind, now) && 0 <= cfg.expired
    requires ProbedSoFar(c0, c, rows, t, ids, slots, n, now)
    ensures
      var (c', bean) := GetBean(c, cfg, t, ids[n], now);
      if (t, ids[n]) in Names(c0.ids) then
        bean == Some(Bean(kind, rows[ids[n]])) && ProbedSoFar(c0, c', rows, t, ids, slots + [Some(rows[ids[n]])], n + 1, now)
      else bean == None && ProbedSoFar(c0, c', rows, t, ids, slots + [None], n + 1, now)
  {
    var id := ids[n];
    assert id in ids;
    if (t, id) in Names(c0.ids) {
      var m := Lookup(c.ids, t, id);
      assert m == Node(t, id, m.lastVisit) && now - m.lastVisit <= cfg.expired;
      HitBean(c, cfg, t, id, Bean(kind, rows[id]), m.lastVisit, now);
      hide GetBean, Names, IsExpired;
      var c' := GetBean(c, cfg, t, id, now).0;
      forall i | 0 <= i < n && (t, ids[i]) in Names(c0.ids) ensures Node(t, ids[i], now) in c'.ids {
        if ids[i] != id { assert Name(Node(t, ids[i], now)) != (t, id); }
      }
    } else {
      MissBean(c, cfg, t, id, now);
      hide GetBean, Names, IsExpired;
    }
  }

  lemma {:induction false} ProbeAll(eng: Engine, c0: Cache, rows: Table, t: string, ids: seq<PK>, n: nat, kind: string, now: int)
    requires n <= |ids| && Holds(c0, eng.cfg, rows, t, ids, kind, now) && 0 <= eng.cfg.expired
    ensures
      var p := Probe(eng, c0, t, ids[..n], kind, now);
      p.Probed? && |p.slots| == n && ProbedSoFar(c0, p.cache, rows, t, ids, p.slots, n, now)
  {
    if n > 0 {
      ProbeAll(eng, c0, rows, t, ids, n - 1, kind, now);
      var p := Probe(eng, c0, t, ids[..n - 1], kind, now);
      ProbeNext(eng.cfg, c0, p.cache, rows, t, ids, p.slots, n - 1, kind, now);
      assert ids[..n][..n - 1] == ids[..n - 1] && ids[n - 1] in ids;
      hide GetBean, ProbedSoFar, Holds;
    }
  }

  // ----- Find: the beans that are fetched -----

  ghost predicate RefilledSoFar(c1: Cache, c: Cache, t: string, batch: seq<Row>, n: nat, kind: string, now: int)
    requires n <= |batch|
  {
    && c.sqls == c1.sqls && Distinct(c.ids) && |c.ids| == |c1.ids| + n
    && (forall p :: p in Names(c.ids) <==> p in Names(c1.ids) || exists i :: 0 <= i < n && p == (t, batch[i].pk))
    && (forall m :: m in c1.ids ==> m in c.ids)
    && (forall i :: 0 <= i < n ==> BeanCached(c, t, batch[i].pk, Bean(kind, batch[i]), now))
    && (forall k :: k in c1.store && (forall i :: 0 <= i < n ==> GenID(t, batch[i].pk) != k) ==> k in c.store && c.store[k] == c1.store[k])
  }

  lemma SameTableKeys(t: string, a: string, b: string)
    ensures GenID(t, a) == GenID(t, b) ==> a == b
  {
    var n := |t| + 1;
    assert GenID(t, a)[n..] == a && GenID(t, b)[n..] == b;
  }

  lemma RefillNext(cfg: Config, c1: Cache, c: Cache, t: string, batch: seq<Row>, n: nat, kind: string, now: int)
    requires n < |batch| && RefilledSoFar(c1, c, t, batch, n, kind, now) && |c1.ids| + |batch| <= cfg.maxElementSize
    requires (t, batch[n].pk) !in Names(c1.ids) && forall i, j :: 0 <= i < j < |batch| ==> batch[i].pk != batch[j].pk
    ensures RefilledSoFar(c1, PutBean(c, cfg, t, batch[n].pk, Bean(kind, batch[n]), now), t, batch, n + 1, kind, now)
  {
    var pk, v := batch[n].pk, Bean(kind, batch[n]);
    PutBeanWithRoom(c, cfg, t, pk, v, now);
    var l := c.ids + [Node(t, pk, now)];
    var c' := PutBean(c, cfg, t, pk, v, now);
    assert c'.ids == l && c'.store == c.store[GenID(t, pk) := v] && c'.sqls == c.sqls;
    hide PutBean, Names, Distinct;
    assert l[|l| - 1] == Node(t, pk, now);
    forall i | 0 <= i < n + 1 ensures BeanCached(c', t, batch[i].pk, Bean(kind, batch[i]), now) {
      SameTableKeys(t, batch[i].pk, pk);
      if i < n { assert BeanCached(c, t, batch[i].pk, Bean(kind, batch[i]), now) && batch[i].pk != pk; }
    }
    hide BeanCached, GenID;
  }

  lemma {:induction false} RefillAll(eng: Engine, c1: Cache, t: string, slots: seq<Option<Row>>, at: map<PK, nat>,
                                     batch: seq<Row>, n: nat, kind: string, now: int)
    requires n <= |batch| && Distinct(c1.ids) && |c1.ids| + |batch| <= eng.cfg.maxElementSize
    requires forall i :: 0 <= i < |batch| ==> (t, batch[i].pk) !in Names(c1.ids)
    requires forall i, j :: 0 <= i < j < |batch| ==> batch[i].pk != batch[j].pk
    ensures RefilledSoFar(c1, Refill(eng, c1, t, slots, at, batch[..n], kind, now).0, t, batch, n, kind, now)
  {
    hide RefilledSoFar, PutBean, Names, Refill, Distinct;
    if n == 0 {
      RefillNone(eng, c1, t, slots, at, batch, kind, now);
    } else {
      RefillAll(eng, c1, t, slots, at, batch, n - 1, kind, now);
      RefillLast(eng, c1, t, slots, at, batch, n, kind, now);
      RefillNext(eng.cfg, c1, Refill(eng, c1, t, slots, at, batch[..n - 1], kind, now).0, t, batch, n - 1, kind, now);
    }
  }

  lemma RefillNone(eng: Engine, c1: Cache, t: string, slots: seq<Option<Row>>, at: map<PK, nat>, batch: seq<Row>,
                   kind: string, now: int)
    requires Distinct(c1.ids)
    ensures RefilledSoFar(c1, Refill(eng, c1, t, slots, at, batch[..0], kind, now).0, t, batch, 0, kind, now)
  {}

  lemma RefillLast(eng: Engine, c1: Cache, t: string, slots: seq<Option<Row>>, at: map<PK, nat>, batch: seq<Row>,
                   n: nat, kind: string, now: int)
    requires 0 < n <= |batch|
    ensures
      var before := Refill(eng, c1, t, slots, at, batch[..n - 1], kind, now).0;
      Refill(eng, c1, t, slots, at, batch[..n], kind, now).0 == PutBean(before, eng.cfg, t, batch[n - 1].pk, Bean(kind, batch[n - 1]), now)
  {
    assert batch[..n][..n - 1] == batch[..n - 1];
    hide PutBean;
  }

  /** The rows of a batch that names each id once. */
  lemma BatchIs(rows: Table, wanted: set<PK>, order: set<PK> -> seq<PK>)
    requires Enumerates(order) && Once(order) && forall id :: id in rows ==> rows[id].pk == id
    ensures
      var batch := Batch(rows, wanted, order);
      && (forall i, j :: 0 <= i < j < |batch| ==> batch[i].pk != batch[j].pk)
      && (forall id :: id in wanted && id in rows ==> rows[id] in batch)
      && (forall r :: r in batch ==> r.pk in wanted && r.pk in rows && rows[r.pk] == r)
  {
    var found := order(wanted * rows.Keys);
    var slots := seq(|found|, i requires 0 <= i < |found| => PlainRow(rows, found[i]));
    forall i | 0 <= i < |found| ensures found[i] in rows && found[i] in wanted && slots[i] == Some(rows[found[i]]) {
      assert found[i] in found && found[i] in wanted * rows.Keys;
    }
    PresentAll(slots);
    BatchRows(rows, wanted, order);
    if wanted != {} {
      assert Batch(rows, wanted, order) == Present(slots);
      assert NoRepeats(found);
    }
  }

  predicate NoRepeats(s: seq<PK>) { forall i, j :: 0 <= i < j < |s| ==> s[i] != s[j] }

  /** The batch query lists no row twice. */
  ghost predicate Once(order: set<PK> -> seq<PK>) { forall s :: NoRepeats(order(s)) }

  lemma {:induction false} Pigeon(s: seq<PK>, ids: seq<PK>)
    requires NoRepeats(s) && forall x :: x in s ==> x in ids
    ensures |s| <= |ids|
    decreases |s|
  {
    if s != [] {
      var x, n := s[|s| - 1], |s| - 1;
      assert x in ids;
      var k :| 0 <= k < |ids| && ids[k] == x;
      var rest := ids[..k] + ids[k + 1..];
      forall y | y in s[..n] ensures y in rest {
        var i :| 0 <= i < n && s[i] == y;
        assert y in ids && y != x;
        var m :| 0 <= m < |ids| && ids[m] == y;
        assert if m < k then rest[m] == y else rest[m - 1] == y;
      }
      Pigeon(s[..n], rest);
    }
  }

  // ----- Find, and Find again -----

  ghost predicate AllCached(c: Cache, t: string, ids: seq<PK>, rows: Table, kind: string, at: int) {
    forall id :: id in ids ==> id in rows && BeanCached(c, t, id, Bean(kind, rows[id]), at)
  }

  /** The cache has room for everything the query selects, and no bean of the table has expired. */
  ghost predicate Roomy(eng: Engine, w: World, q: Query, now: int) {
    var ids := Select(eng, w, q);
    && |ids| <= 500 && NoRepeats(ids) && 0 <= eng.cfg.expired
    && |w.cache.sqls| < eng.cfg.maxElementSize && |w.cache.ids| + |ids| <= eng.cfg.maxElementSize
    && forall m :: m in w.cache.ids && m.table == q.table ==> !IsExpired(m, now, eng.cfg)
  }

  lemma IdsForFindIs(eng: Engine, u: Universe, kindOf: string -> string, w: World, q: Query, now: int)
    requires Good(eng, u, kindOf, w) && Usable(u, q) && Roomy(eng, w, q, now)
    ensures
      var (c, found) := GetIdsForFind(eng, w, q, now);
      var ids := Select(eng, w, q);
      && found == Some(ids) && c.ids == w.cache.ids && ListCached(c, q.table, q.key, ids, now)
      && Good(eng, u, kindOf, w.(cache := c))
  {
    IdsStay(eng, u, kindOf, w, q.table, q.key, now);
    IdsForFindGood(eng, u, kindOf, w, q, now);
    hide Good, ListCached, GetIds, PutIds, NoRepeats;
  }

  /** The batch asks for what is not listed, and fits in. */
  lemma BatchFits(c0: Cache, c: Cache, rows: Table, t: string, ids: seq<PK>, slots: seq<Option<Row>>,
                  order: set<PK> -> seq<PK>, now: int)
    requires |slots| == |ids| && ProbedSoFar(c0, c, rows, t, ids, slots, |ids|, now)
    requires Enumerates(order) && Once(order) && forall id :: id in rows ==> rows[id].pk == id
    requires forall id :: id in ids ==> id in rows
    ensures
      var batch := Batch(rows, MissIndex(ids, slots).Keys, order);
      && (forall i :: 0 <= i < |batch| ==> (t, batch[i].pk) !in Names(c.ids))
      && (forall i, j :: 0 <= i < j < |batch| ==> batch[i].pk != batch[j].pk)
      && |batch| <= |ids|
      && (forall id :: id in ids && (t, id) !in Names(c.ids) ==> rows[id] in batch)
  {
    BatchMisses(c0, c, rows, t, ids, slots, order, now);
    BatchIs(rows, MissIndex(ids, slots).Keys, order);
    hide ProbedSoFar, Names, Batch, MissIndex;
    var batch := Batch(rows, MissIndex(ids, slots).Keys, order);
    var pks := seq(|batch|, i requires 0 <= i < |batch| => batch[i].pk);
    forall x | x in pks ensures x in ids {
      var i :| 0 <= i < |pks| && pks[i] == x;
      assert batch[i] in batch;
    }
    Pigeon(pks, ids);
  }

  lemma BatchMisses(c0: Cache, c: Cache, rows: Table, t: string, ids: seq<PK>, slots: seq<Option<Row>>, order: set<PK> -> seq<PK>,
                    now: int)
    requires |slots| == |ids| && ProbedSoFar(c0, c, rows, t, ids, slots, |ids|, now)
    requires Enumerates(order) && Once(order) && forall id :: id in rows ==> rows[id].pk == id
    requires forall id :: id in ids ==> id in rows
    ensures
      var batch := Batch(rows, MissIndex(ids, slots).Keys, order);
      && (forall r :: r in batch ==> r.pk in ids && (t, r.pk) !in Names(c.ids))
      && (forall id :: id in ids && (t, id) !in Names(c.ids) ==> rows[id] in batch)
  {
    var at := MissIndex(ids, slots);
    var batch := Batch(rows, at.Keys, order);
    BatchIs(rows, at.Keys, order);
    hide Batch, MissIndex;
    forall r | r in batch ensures r.pk in ids && (t, r.pk) !in Names(c.ids) {
      assert r.pk in at && ids[at[r.pk]] == r.pk && slots[at[r.pk]].None?;
    }
    forall id | id in ids && (t, id) !in Names(c.ids) ensures rows[id] in batch {
      var i :| 0 <= i < |ids| && ids[i] == id;
      assert slots[i].None?;
    }
  }

  lemma EverythingCached(c0: Cache, c1: Cache, c2: Cache, rows: Table, t: string, ids: seq<PK>, slots: seq<Option<Row>>,
                         batch: seq<Row>, cfg: Config, kind: string, now: int)
    requires |slots| == |ids| && Holds(c0, cfg, rows, t, ids, kind, now) && ProbedSoFar(c0, c1, rows, t, ids, slots, |ids|, now)
    requires RefilledSoFar(c1, c2, t, batch, |batch|, kind, now)
    requires forall id :: id in ids && (t, id) !in Names(c1.ids) ==> rows[id] in batch
    requires forall i :: 0 <= i < |batch| ==> (t, batch[i].pk) !in Names(c1.ids)
    ensures AllCached(c2, t, ids, rows, kind, now)
  {
    forall id | id in ids ensures id in rows && BeanCached(c2, t, id, Bean(kind, rows[id]), now) {
      if (t, id) in Names(c1.ids) {
        var i :| 0 <= i < |ids| && ids[i] == id;
        assert Node(t, ids[i], now) in c1.ids && GenID(t, id) in c1.store;
        forall j | 0 <= j < |batch| ensures GenID(t, batch[j].pk) != GenID(t, id) { SameTableKeys(t, batch[j].pk, id); }
      } else {
        var i :| 0 <= i < |batch| && batch[i] == rows[id];
        assert BeanCached(c2, t, batch[i].pk, Bean(kind, batch[i]), now);
      }
    }
  }

  /** After a Find with room, its id list and all its beans are cached. */
  lemma FindFills(eng: Engine, u: Universe, kindOf: string -> string, w: World, q: Query, order: set<PK> -> seq<PK>, now: int)
    requires Good(eng, u, kindOf, w) && CanCache(q) && Usable(u, q) && Roomy(eng, w, q, now) && Enumerates(order) && Once(order)
    ensures
      var after := CacheFind(eng, w, q, kindOf(q.table), order, now).0.cache;
      && ListCached(after, q.table, q.key, Select(eng, w, q), now)
      && AllCached(after, q.table, Select(eng, w, q), Rows(w, q.table), kindOf(q.table), now)
  {
    var t, ids, rows, kind := q.table, Select(eng, w, q), Rows(w, q.table), kindOf(q.table);
    IdsForFindIs(eng, u, kindOf, w, q, now);
    SelectedRows(eng, w, q);
    var c0 := GetIdsForFind(eng, w, q, now).0;
    SameRows(w, c0, t);
    GoodHolds(eng, u, kindOf, w.(cache := c0), t, ids, now);
    hide GetIdsForFind;
    ProbeAll(eng, c0, rows, t, ids, |ids|, kind, now);
    assert ids[..|ids|] == ids;
    var p := Probe(eng, c0, t, ids, kind, now);
    var at := MissIndex(ids, p.slots);
    var batch := Batch(rows, at.Keys, order);
    BatchFits(c0, p.cache, rows, t, ids, p.slots, order, now);
    RefillAll(eng, p.cache, t, p.slots, at, batch, |batch|, kind, now);
    assert batch[..|batch|] == batch;
    var c2 := Refill(eng, p.cache, t, p.slots, at, batch, kind, now).0;
    EverythingCached(c0, p.cache, c2, rows, t, ids, p.slots, batch, eng.cfg, kind, now);
    forall i | 0 <= i < |batch| ensures GenID(t, batch[i].pk) != q.key {
      assert (t, batch[i].pk) in u.beans && BeanKey((t, batch[i].pk)) == GenID(t, batch[i].pk) && (t, q.key).1 == q.key;
    }
    hide Probe, Refill, MissIndex, Batch, Good, Holds, AllCached, Roomy;
  }

  /** Probing ids whose beans are all cached. */
  lemma {:induction false} ProbeCached(eng: Engine, c: Cache, t: string, ids: seq<PK>, rows: Table, n: nat,
                                       kind: string, at: int, now: int)
    requires n <= |ids| && NoRepeats(ids) && AllCached(c, t, ids, rows, kind, at) && now - at <= eng.cfg.expired
    requires (forall id :: id in rows ==> rows[id].pk == id) && forall id :: id in ids ==> id in rows
    ensures
      var p := Probe(eng, c, t, ids[..n], kind, now);
      && p.Probed? && |p.slots| == n && (forall i :: 0 <= i < n ==> p.slots[i] == PlainRow(rows, ids[i]))
      && (forall i :: n <= i < |ids| ==> BeanCached(p.cache, t, ids[i], Bean(kind, rows[ids[i]]), at))
  {
    if n > 0 {
      ProbeCached(eng, c, t, ids, rows, n - 1, kind, at, now);
      var p := Probe(eng, c, t, ids[..n - 1], kind, now);
      assert ids[..n][..n - 1] == ids[..n - 1] && ids[n - 1] in ids;
      hide BeanCached, AllCached, GetBean, Probe;
      HitOnce(p.cache, eng.cfg, t, ids, rows, n - 1, kind, at, now);
      ProbeHit(eng, c, t, ids[..n], kind, now);
    }
  }

  lemma ProbeHit(eng: Engine, c: Cache, t: string, ids: seq<PK>, kind: string, now: int)
    requires ids != [] && Probe(eng, c, t, ids[..|ids| - 1], kind, now).Probed?
    ensures
      var id, before := ids[|ids| - 1], Probe(eng, c, t, ids[..|ids| - 1], kind, now);
      var (after, bean) := GetBean(before.cache, eng.cfg, t, id, now);
      bean.Some? && bean.value.Bean? && bean.value.kind == kind && bean.value.row.pk == id ==>
        Probe(eng, c, t, ids, kind, now) == Probed(after, before.slots + [Some(bean.value.row)])
  {
    hide GetBean;
  }

  lemma HitOnce(c: Cache, cfg: Config, t: string, ids: seq<PK>, rows: Table, n: nat, kind: string, at: int, now: int)
    requires n < |ids| && NoRepeats(ids) && now - at <= cfg.expired && forall id :: id in ids ==> id in rows
    requires forall i :: n <= i < |ids| ==> BeanCached(c, t, ids[i], Bean(kind, rows[ids[i]]), at)
    ensures
      var (c', bean) := GetBean(c, cfg, t, ids[n], now);
      && bean == Some(Bean(kind, rows[ids[n]]))
      && forall i :: n < i < |ids| ==> BeanCached(c', t, ids[i], Bean(kind, rows[ids[i]]), at)
  {
    HitBean(c, cfg, t, ids[n], Bean(kind, rows[ids[n]]), at, now);
    var c' := GetBean(c, cfg, t, ids[n], now).0;
    hide GetBean, Names;
    forall i | n < i < |ids| ensures BeanCached(c', t, ids[i], Bean(kind, rows[ids[i]]), at) {
      assert BeanCached(c, t, ids[i], Bean(kind, rows[ids[i]]), at);
      assert Name(Node(t, ids[i], at)) != (t, ids[n]);
    }
  }

  lemma {:induction false} NoneMissing(ids: seq<PK>, slots: seq<Option<Row>>)
    requires |slots| == |ids| && forall i :: 0 <= i < |ids| ==> slots[i].Some?
    ensures MissIndex(ids, slots) == map[]
    decreases |ids|
  {
    if ids != [] { NoneMissing(ids[..|ids| - 1], slots[..|ids| - 1]); }
  }

  lemma FindFromCache(eng: Engine, w: World, q: Query, kind: string, ids: seq<PK>, rows: Table,
                      order: set<PK> -> seq<PK>, at: int, now: int)
    requires CanCache(q) && NoRepeats(ids) && now - at <= eng.cfg.expired && forall id :: id in rows ==> rows[id].pk == id
    requires ListCached(w.cache, q.table, q.key, ids, at) && AllCached(w.cache, q.table, ids, rows, kind, at)
    ensures CacheFind(eng, w, q, kind, order, now).1 == Listed(Present(Lifted(rows, ids)))
  {
    HitIds(w.cache, eng.cfg, q.table, q.key, ids, at, now);
    var c := GetIds(w.cache, eng.cfg, q.table, q.key, now).0;
    assert GetIdsForFind(eng, w, q, now) == (c, Some(ids));
    assert AllCached(c, q.table, ids, rows, kind, at);
    hide GetIds, GetIdsForFind;
    ProbeCached(eng, c, q.table, ids, rows, |ids|, kind, at, now);
    assert ids[..|ids|] == ids;
    var p := Probe(eng, c, q.table, ids, kind, now);
    assert forall id :: id in ids ==> id in rows;
    assert forall i :: 0 <= i < |ids| ==> ids[i] in ids;
    assert p.slots == Lifted(rows, ids);
    NoneMissing(ids, p.slots);
    hide Probe, MissIndex, Present;
  }

  /** For as long as entries live, the same Find gives the same reply, whatever happens to the tables
      behind the cache. */
  lemma FindThenFind(eng: Engine, u: Universe, kindOf: string -> string, w: World, q: Query, order: set<PK> -> seq<PK>, now: int,
                     tables: map<string, Table>, order': set<PK> -> seq<PK>, later: int)
    requires Good(eng, u, kindOf, w) && CanCache(q) && Usable(u, q) && Roomy(eng, w, q, now) && Enumerates(order) && Once(order)
    requires later - now <= eng.cfg.expired
    ensures
      var after := Find(eng, w, q, kindOf(q.table), order, now).0;
      Find(eng, World(tables, after.cache), q, kindOf(q.table), order', later).1 == Listed(PlainFind(eng, w, q))
  {
    FindFills(eng, u, kindOf, w, q, order, now);
    GoodKeyed(eng, u, kindOf, w, q.table);
    var after := CacheFind(eng, w, q, kindOf(q.table), order, now).0;
    FindFromCache(eng, World(tables, after.cache), q, kindOf(q.table), Select(eng, w, q), Rows(w, q.table), order', now, later);
    hide CacheFind, Good, Roomy;
  }

  /** A query of more than 500 ids is not cached, nor are its beans. */
  lemma LongListIsNotCached(eng: Engine, w: World, q: Query, kind: string, order: set<PK> -> seq<PK>, now: int)
    requires |Select(eng, w, q)| > 500 && q.key !in w.cache.store
    ensures
      var (after, reply) := CacheFind(eng, w, q, kind, order, now);
      reply == FindCacheFailed && after.cache.ids == w.cache.ids && after.cache.store == w.cache.store
  {
    assert w.cache.store - {q.key} == w.cache.store;
  }

  // ----- what an Insert, Update or Delete leaves alone -----

  predicate SameAt(a: map<string, Value>, b: map<string, Value>, k: string) {
    (k in a <==> k in b) && (k in a ==> a[k] == b[k])
  }

  /** All entries of other tables, and the table's beans but these, are as before. */
  ghost predicate Spared(u: Universe, c: Cache, after: Cache, t: string, ids: iset<PK>) {
    && (forall p :: p in u.sqls && p.0 != t ==> SameAt(c.store, after.store, p.1))
    && (forall p :: p in u.beans && (p.0 != t || p.1 !in ids) ==> SameAt(c.store, after.store, BeanKey(p)))
  }

  /** Only these keys go. */
  ghost predicate OnlyGo(c: Cache, after: Cache, u: Universe, t: string, ids: iset<PK>) {
    && (forall k :: k in after.store ==> k in c.store && after.store[k] == c.store[k])
    && forall k :: k in c.store && k !in after.store ==>
         (exists q :: (t, q) in u.sqls && k == q) || (exists id :: id in ids && (t, id) in u.beans && k == GenID(t, id))
  }

  lemma ClearIdsOnly(c: Cache, cfg: Config, u: Universe, t: string)
    requires Owned(c, cfg, u)
    ensures OnlyGo(c, ClearIds(c, t), u, t, iset{})
  {
    forall k | k in c.store && k !in ClearIds(c, t).store ensures (t, k) in u.sqls {
      var n :| n in c.sqls && n.table == t && n.key == k;
      assert Name(n) in Names(c.sqls);
    }
  }

  ghost function AnyId(): iset<PK> { iset id: PK | |id| >= 0 }

  lemma ClearBeansOnly(c: Cache, cfg: Config, u: Universe, t: string)
    requires Owned(c, cfg, u)
    ensures OnlyGo(c, ClearBeans(c, t), u, t, AnyId())
  {
    forall k | k in c.store && k !in ClearBeans(c, t).store ensures exists id :: (t, id) in u.beans && k == GenID(t, id) {
      var id :| id in KeysOf(c.ids, t) && k == GenID(t, id);
      var n :| n in c.ids && n.table == t && n.key == id;
      assert Name(n) in Names(c.ids);
    }
  }

  lemma DelBeanOnly(c: Cache, cfg: Config, u: Universe, t: string, id: PK)
    requires Owned(c, cfg, u) && (t, id) in u.beans
    ensures OnlyGo(c, DelBean(c, t, id), u, t, iset{id})
  {
    forall k | k in c.store && k !in DelBean(c, t, id).store && k != GenID(t, id) ensures (t, k) in u.sqls {
      var n :| n in c.sqls && n.table == t && n.key == k;
      assert Name(n) in Names(c.sqls);
    }
  }

  lemma GetIdsOnly(c: Cache, cfg: Config, u: Universe, t: string, q: string, now: int)
    requires (t, q) in u.sqls
    ensures OnlyGo(c, GetIds(c, cfg, t, q, now).0, u, t, iset{})
  {}

  lemma OnlyGoThen(a: Cache, b: Cache, c: Cache, u: Universe, t: string, ids: iset<PK>, more: iset<PK>)
    requires OnlyGo(a, b, u, t, ids) && OnlyGo(b, c, u, t, more)
    ensures OnlyGo(a, c, u, t, ids + more)
  {}

  lemma {:induction false} DelBeansOnly(c: Cache, cfg: Config, u: Universe, t: string, ids: seq<PK>)
    requires Separated(u) && Owned(c, cfg, u) && CachedTable(u, t)
    ensures OnlyGo(c, DelBeans(c, t, ids), u, t, iset id | id in ids) && Owned(DelBeans(c, t, ids), cfg, u)
  {
    hide OnlyGo, Owned, DelBean, Separated;
    if ids == [] {
      NothingGoes(c, u, t);
      assert (iset id | id in ids) == iset{};
    } else {
      var n := |ids| - 1;
      DelBeansOnly(c, cfg, u, t, ids[..n]);
      DelBeanOnly(DelBeans(c, t, ids[..n]), cfg, u, t, ids[n]);
      DelBeanOwned(DelBeans(c, t, ids[..n]), cfg, u, t, ids[n]);
      OnlyGoThen(c, DelBeans(c, t, ids[..n]), DelBeans(c, t, ids), u, t, iset id | id in ids[..n], iset{ids[n]});
      assert (iset id | id in ids[..n]) + iset{ids[n]} == iset id | id in ids;
    }
  }

  lemma NothingGoes(c: Cache, u: Universe, t: string)
    ensures OnlyGo(c, c, u, t, iset{})
  {}

  lemma GoneAreSpared(c: Cache, after: Cache, u: Universe, t: string, ids: iset<PK>)
    requires Separated(u) && OnlyGo(c, after, u, t, ids)
    ensures Spared(u, c, after, t, ids)
  {
    forall p | p in u.sqls && p.0 != t ensures SameAt(c.store, after.store, p.1) {
      assert forall q :: (t, q) in u.sqls ==> (t, q).1 == q;
      assert forall id :: (t, id) in u.beans ==> BeanKey((t, id)) == GenID(t, id);
    }
    forall p | p in u.beans && (p.0 != t || p.1 !in ids) ensures SameAt(c.store, after.store, BeanKey(p)) {
      assert forall q :: (t, q) in u.sqls ==> (t, q).1 == q;
      assert forall id :: (t, id) in u.beans ==> BeanKey((t, id)) == GenID(t, id);
    }
  }

  /** An Insert takes no bean from the cache, and no id list of another table. */
  lemma InsertSpares(cfg: Config, u: Universe, w: World, t: string, added: Table)
    requires Separated(u) && Owned(w.cache, cfg, u)
    ensures Spared(u, w.cache, Insert(w, t, added).cache, t, iset{})
  {
    ClearIdsOnly(w.cache, cfg, u, t);
    GoneAreSpared(w.cache, ClearIds(w.cache, t), u, t, iset{});
  }

  /** An Update takes nothing of another table. */
  lemma UpdateSpares(cfg: Config, u: Universe, w: World, t: string, change: Table -> Table)
    requires Separated(u) && Owned(w.cache, cfg, u)
    ensures Spared(u, w.cache, Update(w, t, change).cache, t, AnyId())
  {
    ClearIdsOnly(w.cache, cfg, u, t);
    ClearIdsOwned(w.cache, cfg, u, t);
    ClearBeansOnly(ClearIds(w.cache, t), cfg, u, t);
    var after := ClearBeans(ClearIds(w.cache, t), t);
    hide OnlyGo, ClearBeans, ClearIds;
    OnlyGoThen(w.cache, ClearIds(w.cache, t), after, u, t, iset{}, AnyId());
    GoneAreSpared(w.cache, after, u, t, iset{} + AnyId());
    assert iset{} + AnyId() == AnyId();
    hide Separated, Owned;
  }

  /** A Delete takes the beans of the rows that its query selects, and nothing of another table. */
  lemma DeleteSpares(eng: Engine, u: Universe, kindOf: string -> string, w: World, q: Query, guarded: bool, now: int)
    requires Good(eng, u, kindOf, w) && Usable(u, q)
    ensures Spared(u, w.cache, Delete(eng, w, q, guarded, now).cache, q.table,
                   iset id | id in Select(eng, w, q))
  {
    var t, ids := q.table, Select(eng, w, q);
    if guarded && q.cacheable {
      GetIdsGood(eng, u, kindOf, w, t, q.key, now);
      var c := GetIds(w.cache, eng.cfg, t, q.key, now).0;
      GetIdsOnly(w.cache, eng.cfg, u, t, q.key, now);
      var c2 := DelBeans(c, t, ids);
      DelBeansOnly(c, eng.cfg, u, t, ids);
      ClearIdsOnly(c2, eng.cfg, u, t);
      hide OnlyGo, GetIds, DelBeans, ClearIds, Owned;
      OnlyGoThen(w.cache, c, c2, u, t, iset{}, iset id | id in ids);
      OnlyGoThen(w.cache, c2, ClearIds(c2, t), u, t, iset{} + (iset id | id in ids), iset{});
      GoneAreSpared(w.cache, ClearIds(c2, t), u, t, iset{} + (iset id | id in ids) + iset{});
      assert iset{} + (iset id | id in ids) + iset{} == iset id | id in ids;
    }
  }
}
