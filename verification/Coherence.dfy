/** A session with a cache cannot be told from a session without one. */
module Coherence {
  import opened Utils
  import opened Values
  import opened LruSpec
  import opened LruInvariant
  import opened LruHistory
  import opened CacheProtocol

  // ----- hypotheses and the invariant -----

  function First(ids: seq<PK>): seq<PK> { if ids == [] then [] else ids[..1] }

  /** Queries select rows of their table, LIMIT 1 cuts a query to its first row, and a DELETE
      takes only rows its query selects. */
  ghost predicate SoundQueries(eng: Engine) {
    && (forall q, rows, p :: p in eng.select(q, rows) ==> p in rows)
    && (forall q, rows :: eng.select(eng.limit1(q), rows) == First(eng.select(q, rows)))
    && (forall q, rows, p :: p in eng.victims(q, rows) ==> p in eng.select(q, rows))
  }

  ghost predicate Keyed(rows: Table) { forall p :: p in rows ==> rows[p].pk == p }

  ghost predicate WellKeyed(w: World) { forall t :: Keyed(Rows(w, t)) }

  predicate Fits(v: Value, rows: Table, id: PK, kind: string) {
    v.Bean? && id in rows && v.row == rows[id] && v.kind == kind
  }

  /** Every cached bean is the table's current row, as the one struct type used for the
      table; every cached id list is what its query selects now. */
  ghost predicate Coherent(eng: Engine, u: Universe, kindOf: string -> string, w: World) {
    && (forall p :: p in u.beans && BeanKey(p) in w.cache.store ==>
          Fits(w.cache.store[BeanKey(p)], Rows(w, p.0), p.1, kindOf(p.0)))
    && (forall p :: p in u.sqls && p.1 in w.cache.store ==>
          w.cache.store[p.1] == Ids(eng.select(p.1, Rows(w, p.0))))
  }

  ghost predicate Good(eng: Engine, u: Universe, kindOf: string -> string, w: World) {
    && Separated(u) && SoundQueries(eng) && WellKeyed(w)
    && Owned(w.cache, eng.cfg, u) && Coherent(eng, u, kindOf, w)
  }

  /** The cacher may be asked for every id of the table. */
  ghost predicate CachedTable(u: Universe, table: string) { forall id :: (table, id) in u.beans }

  ghost predicate Usable(u: Universe, q: Query) { CachedTable(u, q.table) && (q.table, q.key) in u.sqls }

  // ----- single cache calls -----

  lemma AfterForgetting(eng: Engine, u: Universe, kindOf: string -> string, w: World, c: Cache)
    requires Good(eng, u, kindOf, w) && Owned(c, eng.cfg, u) && Forgets(w.cache.store, c.store)
    ensures Good(eng, u, kindOf, w.(cache := c))
  {
    var w' := w.(cache := c);
    assert forall t :: Rows(w', t) == Rows(w, t);
  }

  lemma GetBeanGood(eng: Engine, u: Universe, kindOf: string -> string, w: World, t: string, id: PK, now: int)
    requires Good(eng, u, kindOf, w) && (t, id) in u.beans
    ensures
      var (c, bean) := GetBean(w.cache, eng.cfg, t, id, now);
      && Good(eng, u, kindOf, w.(cache := c))
      && (bean.Some? ==> Fits(bean.value, Rows(w, t), id, kindOf(t)))
  {
    var e := Event(OpGetBean(t, id), now);
    GetBeanOwned(w.cache, eng.cfg, u, t, id, now);
    ApplyForgets(w.cache, eng.cfg, e);
    AfterForgetting(eng, u, kindOf, w, GetBean(w.cache, eng.cfg, t, id, now).0);
    assert BeanKey((t, id)) == GenID(t, id);
  }

  lemma GetIdsGood(eng: Engine, u: Universe, kindOf: string -> string, w: World, t: string, key: string, now: int)
    requires Good(eng, u, kindOf, w) && (t, key) in u.sqls
    ensures
      var (c, hit) := GetIds(w.cache, eng.cfg, t, key, now);
      && Good(eng, u, kindOf, w.(cache := c))
      && (hit.Some? ==> hit.value == Ids(eng.select(key, Rows(w, t))))
  {
    GetIdsOwned(w.cache, eng.cfg, u, t, key, now);
    ApplyForgets(w.cache, eng.cfg, Event(OpGetIds(t, key), now));
    AfterForgetting(eng, u, kindOf, w, GetIds(w.cache, eng.cfg, t, key, now).0);
    assert (t, key).1 == key;
  }

  lemma PutBeanGood(eng: Engine, u: Universe, kindOf: string -> string, w: World, t: string, row: Row, now: int)
    requires Good(eng, u, kindOf, w) && (t, row.pk) in u.beans
    requires row.pk in Rows(w, t) && Rows(w, t)[row.pk] == row
    ensures Good(eng, u, kindOf, w.(cache := PutBean(w.cache, eng.cfg, t, row.pk, Bean(kindOf(t), row), now)))
  {
    var v := Bean(kindOf(t), row);
    var c := PutBean(w.cache, eng.cfg, t, row.pk, v, now);
    var w' := w.(cache := c);
    PutBeanOwned(w.cache, eng.cfg, u, t, row.pk, v, now);
    ApplyForgets(w.cache, eng.cfg, Event(OpPutBean(t, row.pk, v), now));
    assert forall x :: Rows(w', x) == Rows(w, x);
    assert BeanKey((t, row.pk)) == GenID(t, row.pk);
    hide PutBean, Owned, Rows, SoundQueries, Coherent, BeanKey, GenID;
    OneMore(eng, u, kindOf, w, c, GenID(t, row.pk), v);
  }

  /** One more entry, right for every name that it serves, and perhaps fewer of the others. */
  lemma OneMore(eng: Engine, u: Universe, kindOf: string -> string, w: World, c: Cache, key: string, v: Value)
    requires Coherent(eng, u, kindOf, w) && Forgets(w.cache.store[key := v], c.store)
    requires forall p :: p in u.beans && BeanKey(p) == key ==> Fits(v, Rows(w, p.0), p.1, kindOf(p.0))
    requires forall p :: p in u.sqls && p.1 == key ==> v == Ids(eng.select(p.1, Rows(w, p.0)))
    ensures Coherent(eng, u, kindOf, w.(cache := c))
  {
    var w' := w.(cache := c);
    assert forall x :: Rows(w', x) == Rows(w, x);
    hide Rows, Fits, BeanKey;
  }

  lemma PutIdsGood(eng: Engine, u: Universe, kindOf: string -> string, w: World, t: string, key: string, now: int)
    requires Good(eng, u, kindOf, w) && (t, key) in u.sqls
    ensures Good(eng, u, kindOf, w.(cache := PutIds(w.cache, eng.cfg, t, key, Ids(eng.select(key, Rows(w, t))), now)))
  {
    var v := Ids(eng.select(key, Rows(w, t)));
    var c := PutIds(w.cache, eng.cfg, t, key, v, now);
    var w' := w.(cache := c);
    PutIdsOwned(w.cache, eng.cfg, u, t, key, v, now);
    ApplyForgets(w.cache, eng.cfg, Event(OpPutIds(t, key, v), now));
    assert forall x :: Rows(w', x) == Rows(w, x);
    assert (t, key).1 == key;
    hide PutIds, Owned, Rows, SoundQueries, Coherent, BeanKey;
    OneMore(eng, u, kindOf, w, c, key, v);
  }

  lemma GoodKeyed(eng: Engine, u: Universe, kindOf: string -> string, w: World, t: string)
    requires Good(eng, u, kindOf, w)
    ensures Keyed(Rows(w, t))
  {}

  // ----- Find -----

  function Lifted(rows: Table, ids: seq<PK>): seq<Option<Row>> {
    seq(|ids|, i requires 0 <= i < |ids| => PlainRow(rows, ids[i]))
  }

  lemma {:induction false} ProbeGood(eng: Engine, u: Universe, kindOf: string -> string, w: World, t: string,
                                     ids: seq<PK>, now: int)
    requires Good(eng, u, kindOf, w) && CachedTable(u, t)
    ensures
      var p := Probe(eng, w.cache, t, ids, kindOf(t), now);
      && p.Probed? && Good(eng, u, kindOf, w.(cache := p.cache))
      && (forall i :: 0 <= i < |ids| && p.slots[i].Some? ==> p.slots[i] == PlainRow(Rows(w, t), ids[i]))
  {
    hide Good;
    if ids != [] {
      var n := |ids| - 1;
      ProbeGood(eng, u, kindOf, w, t, ids[..n], now);
      var p := Probe(eng, w.cache, t, ids[..n], kindOf(t), now);
      var w1 := w.(cache := p.cache);
      assert Rows(w1, t) == Rows(w, t);
      GoodKeyed(eng, u, kindOf, w, t);
      GetBeanGood(eng, u, kindOf, w1, t, ids[n], now);
      var bean := GetBean(p.cache, eng.cfg, t, ids[n], now).1;
      assert bean.Some? ==> Fits(bean.value, Rows(w, t), ids[n], kindOf(t)) && bean.value.row.pk == ids[n];
    }
  }

  lemma {:induction false} RefillGood(eng: Engine, u: Universe, kindOf: string -> string, w: World, t: string,
                                      slots: seq<Option<Row>>, at: map<PK, nat>, batch: seq<Row>, now: int)
    requires Good(eng, u, kindOf, w) && CachedTable(u, t)
    requires forall r :: r in batch ==> r.pk in Rows(w, t) && Rows(w, t)[r.pk] == r
    ensures Good(eng, u, kindOf, w.(cache := Refill(eng, w.cache, t, slots, at, batch, kindOf(t), now).0))
  {
    if batch != [] {
      var n := |batch| - 1;
      RefillGood(eng, u, kindOf, w, t, slots, at, batch[..n], now);
      var w1 := w.(cache := Refill(eng, w.cache, t, slots, at, batch[..n], kindOf(t), now).0);
      assert Rows(w1, t) == Rows(w, t) && batch[n] in batch;
      PutBeanGood(eng, u, kindOf, w1, t, batch[n], now);
    }
  }

  /** After refilling, a slot holds its old row, or the fetched row that was sent there. */
  lemma {:induction false} RefillSlots(eng: Engine, c: Cache, t: string, slots: seq<Option<Row>>, at: map<PK, nat>,
                                       batch: seq<Row>, kind: string, now: int)
    requires forall r :: r in batch ==> r.pk in at && at[r.pk] < |slots|
    requires forall p, q :: p in at && q in at && at[p] == at[q] ==> p == q
    requires forall r, s :: r in batch && s in batch && r.pk == s.pk ==> r == s
    ensures
      var filled := Refill(eng, c, t, slots, at, batch, kind, now).1;
      && (forall r :: r in batch ==> filled[at[r.pk]] == Some(r))
      && (forall i :: 0 <= i < |slots| && (forall r :: r in batch ==> at[r.pk] != i) ==> filled[i] == slots[i])
  {
    if batch != [] {
      var n := |batch| - 1;
      RefillSlots(eng, c, t, slots, at, batch[..n], kind, now);
      assert forall r :: r in batch <==> r in batch[..n] || r == batch[n];
    }
  }

  /** What an IN query may return: each wanted row once, in some order. */
  ghost predicate Enumerates(order: set<PK> -> seq<PK>) {
    forall s, p :: p in order(s) <==> p in s
  }

  lemma {:induction false} PresentAll(slots: seq<Option<Row>>)
    requires forall i :: 0 <= i < |slots| ==> slots[i].Some?
    ensures |Present(slots)| == |slots|
    ensures forall i :: 0 <= i < |slots| ==> Present(slots)[i] == slots[i].value
  {
    if slots != [] { PresentAll(slots[..|slots| - 1]); }
  }

  lemma {:induction false} PresentLoses(slots: seq<Option<Row>>, k: nat)
    requires k < |slots| && slots[k].None?
    ensures |Present(slots)| < |slots|
  {
    var n := |slots| - 1;
    if k < n { PresentLoses(slots[..n], k); }
  }

  lemma BatchRows(rows: Table, wanted: set<PK>, order: set<PK> -> seq<PK>)
    requires Enumerates(order) && Keyed(rows)
    ensures forall r :: r in Batch(rows, wanted, order) <==> r.pk in wanted && r.pk in rows && rows[r.pk] == r
  {
    var found := order(wanted * rows.Keys);
    var slots := seq(|found|, i requires 0 <= i < |found| => PlainRow(rows, found[i]));
    forall i | 0 <= i < |found| ensures found[i] in rows && found[i] in wanted && slots[i] == Some(rows[found[i]]) {
      assert found[i] in found && found[i] in wanted * rows.Keys;
    }
    PresentAll(slots);
    forall r: Row | r.pk in wanted && r.pk in rows && rows[r.pk] == r ensures r in Batch(rows, wanted, order) {
      assert r.pk in wanted * rows.Keys && r.pk in found;
      var i :| 0 <= i < |found| && found[i] == r.pk;
      assert Present(slots)[i] == r;
    }
  }

  /** No id is missing from the cache at two positions of the list. */
  ghost predicate MissesOnce(ids: seq<PK>, slots: seq<Option<Row>>)
    requires |slots| == |ids|
  {
    forall i, j :: 0 <= i < j < |ids| && slots[i].None? && slots[j].None? ==> ids[i] != ids[j]
  }

  /** The assembled slots: each id's row, except where a missing id comes again later. */
  lemma FilledSlots(eng: Engine, c: Cache, t: string, rows: Table, ids: seq<PK>, slots: seq<Option<Row>>,
                    order: set<PK> -> seq<PK>, kind: string, now: int)
    requires |slots| == |ids| && Keyed(rows) && Enumerates(order)
    requires forall i :: 0 <= i < |ids| ==> ids[i] in rows
    requires forall i :: 0 <= i < |ids| && slots[i].Some? ==> slots[i] == PlainRow(rows, ids[i])
    ensures
      var at := MissIndex(ids, slots);
      var filled := Refill(eng, c, t, slots, at, Batch(rows, at.Keys, order), kind, now).1;
      forall i :: 0 <= i < |ids| ==>
        filled[i] == if slots[i].None? && i < at[ids[i]] then None else Some(rows[ids[i]])
  {
    var at := MissIndex(ids, slots);
    var batch := Batch(rows, at.Keys, order);
    BatchRows(rows, at.Keys, order);
    RefillSlots(eng, c, t, slots, at, batch, kind, now);
    var filled := Refill(eng, c, t, slots, at, batch, kind, now).1;
    forall i | 0 <= i < |ids|
      ensures filled[i] == if slots[i].None? && i < at[ids[i]] then None else Some(rows[ids[i]])
    {
      if slots[i].None? && i == at[ids[i]] {
        assert rows[ids[i]] in batch;
      } else {
        assert forall r :: r in batch ==> at[r.pk] != i;
      }
    }
  }

  /** From a good state the cached Find returns the plain result exactly when no missing id
      occurs twice, for every split into hits and misses and every order of the refill. */
  lemma AssembledIff(eng: Engine, c: Cache, t: string, rows: Table, ids: seq<PK>, slots: seq<Option<Row>>,
                     order: set<PK> -> seq<PK>, kind: string, now: int)
    requires |slots| == |ids| && Keyed(rows) && Enumerates(order)
    requires forall i :: 0 <= i < |ids| ==> ids[i] in rows
    requires forall i :: 0 <= i < |ids| && slots[i].Some? ==> slots[i] == PlainRow(rows, ids[i])
    ensures
      var at := MissIndex(ids, slots);
      var filled := Refill(eng, c, t, slots, at, Batch(rows, at.Keys, order), kind, now).1;
      Present(filled) == Present(Lifted(rows, ids)) <==> MissesOnce(ids, slots)
  {
    var at := MissIndex(ids, slots);
    var filled := Refill(eng, c, t, slots, at, Batch(rows, at.Keys, order), kind, now).1;
    FilledSlots(eng, c, t, rows, ids, slots, order, kind, now);
    PresentAll(Lifted(rows, ids));
    if MissesOnce(ids, slots) {
      assert filled == Lifted(rows, ids);
    } else {
      var i, j :| 0 <= i < j < |ids| && slots[i].None? && slots[j].None? && ids[i] == ids[j];
      assert i < at[ids[i]];
      PresentLoses(filled, i);
    }
  }

  lemma IdsForFindGood(eng: Engine, u: Universe, kindOf: string -> string, w: World, q: Query, now: int)
    requires Good(eng, u, kindOf, w) && Usable(u, q)
    ensures
      var (c, found) := GetIdsForFind(eng, w, q, now);
      && Good(eng, u, kindOf, w.(cache := c))
      && (found.Some? ==> found.value == Select(eng, w, q))
  {
    GetIdsGood(eng, u, kindOf, w, q.table, q.key, now);
    var (c, hit) := GetIds(w.cache, eng.cfg, q.table, q.key, now);
    assert Rows(w.(cache := c), q.table) == Rows(w, q.table);
    PutIdsGood(eng, u, kindOf, w.(cache := c), q.table, q.key, now);
  }

  /** The slots the cache fills for this query, before the batch query. */
  ghost function SlotsOf(eng: Engine, w: World, q: Query, kind: string, now: int): (s: seq<Option<Row>>)
    ensures |s| == |Select(eng, w, q)|
  {
    var (c, _) := GetIdsForFind(eng, w, q, now);
    var ids := Select(eng, w, q);
    match Probe(eng, c, q.table, ids, kind, now)
    case Probed(_, slots) => slots
    case ProbeFailed(_) => seq(|ids|, _ => None)
  }

  /** The cached path, once the ids are known. */
  lemma FindFromIds(eng: Engine, u: Universe, kindOf: string -> string, w: World, t: string, ids: seq<PK>,
                    order: set<PK> -> seq<PK>, now: int)
    requires Good(eng, u, kindOf, w) && CachedTable(u, t) && Enumerates(order)
    requires forall i :: 0 <= i < |ids| ==> ids[i] in Rows(w, t)
    ensures
      var p := Probe(eng, w.cache, t, ids, kindOf(t), now);
      && p.Probed?
      && (var at := MissIndex(ids, p.slots);
          var (c2, filled) := Refill(eng, p.cache, t, p.slots, at, Batch(Rows(w, t), at.Keys, order), kindOf(t), now);
          && Good(eng, u, kindOf, w.(cache := c2))
          && (Present(filled) == Present(Lifted(Rows(w, t), ids)) <==> MissesOnce(ids, p.slots)))
  {
    hide Good;
    ProbeGood(eng, u, kindOf, w, t, ids, now);
    var p := Probe(eng, w.cache, t, ids, kindOf(t), now);
    var at := MissIndex(ids, p.slots);
    var w1 := w.(cache := p.cache);
    assert Rows(w1, t) == Rows(w, t);
    GoodKeyed(eng, u, kindOf, w, t);
    BatchRows(Rows(w, t), at.Keys, order);
    RefillGood(eng, u, kindOf, w1, t, p.slots, at, Batch(Rows(w, t), at.Keys, order), now);
    AssembledIff(eng, p.cache, t, Rows(w, t), ids, p.slots, order, kindOf(t), now);
  }

  lemma SelectedRows(eng: Engine, w: World, q: Query)
    requires SoundQueries(eng)
    ensures forall i :: 0 <= i < |Select(eng, w, q)| ==> Select(eng, w, q)[i] in Rows(w, q.table)
  {
    forall i | 0 <= i < |Select(eng, w, q)| ensures Select(eng, w, q)[i] in Rows(w, q.table) {
      assert Select(eng, w, q)[i] in eng.select(q.key, Rows(w, q.table));
    }
  }

  /** The cached path of Find from a good state. */
  lemma CacheFindFaithful(eng: Engine, u: Universe, kindOf: string -> string, w: World, q: Query,
                          order: set<PK> -> seq<PK>, now: int)
    requires Good(eng, u, kindOf, w) && Usable(u, q) && Enumerates(order) && CanCache(q)
    ensures
      var (w', reply) := CacheFind(eng, w, q, kindOf(q.table), order, now);
      && Good(eng, u, kindOf, w') && w'.tables == w.tables
      && (reply.FindCacheFailed? <==> GetIdsForFind(eng, w, q, now).1.None?)
      && (reply.Listed? ==>
            (reply == Listed(PlainFind(eng, w, q)) <==>
               MissesOnce(Select(eng, w, q), SlotsOf(eng, w, q, kindOf(q.table), now))))
  {
    SelectedRows(eng, w, q);
    IdsForFindGood(eng, u, kindOf, w, q, now);
    hide Good, GetIdsForFind, Probe, Refill, Usable, Enumerates, SoundQueries, MissesOnce, Present, Batch, MissIndex;
    var (c, found) := GetIdsForFind(eng, w, q, now);
    var w1 := w.(cache := c);
    assert Rows(w1, q.table) == Rows(w, q.table);
    if found.Some? {
      FindFromIds(eng, u, kindOf, w1, q.table, found.value, order, now);
      assert PlainFind(eng, w, q) == Present(Lifted(Rows(w, q.table), found.value));
    }
  }

  /** Find from a good state: still good, and equal to the plain query unless the cached
      path ran into an id that is missing from the cache and listed twice. */
  lemma FindFaithful(eng: Engine, u: Universe, kindOf: string -> string, w: World, q: Query,
                     order: set<PK> -> seq<PK>, now: int)
    requires Good(eng, u, kindOf, w) && (CanCache(q) ==> Usable(u, q)) && Enumerates(order)
    ensures
      var (w', reply) := Find(eng, w, q, kindOf(q.table), order, now);
      && Good(eng, u, kindOf, w') && w'.tables == w.tables
      && (reply == Listed(PlainFind(eng, w, q)) <==>
            (CanCache(q) && GetIdsForFind(eng, w, q, now).1.Some? ==>
               MissesOnce(Select(eng, w, q), SlotsOf(eng, w, q, kindOf(q.table), now))))
  {
    hide Good, GetIdsForFind, SlotsOf, Usable, Enumerates, PlainFind;
    if CanCache(q) {
      CacheFindFaithful(eng, u, kindOf, w, q, order, now);
      hide CacheFind;
      PlainFindTables(eng, CacheFind(eng, w, q, kindOf(q.table), order, now).0, w, q);
    }
  }

  lemma PlainFindTables(eng: Engine, a: World, b: World, q: Query)
    requires a.tables == b.tables
    ensures PlainFind(eng, a, q) == PlainFind(eng, b, q)
  {}

  // ----- Get -----

  /** The query selects at most one row of any table content. */
  ghost predicate SingleRow(eng: Engine, q: Query) { forall rows :: |eng.select(q.key, rows)| <= 1 }

  /** Every Get that reaches the cached path is limited to one row: raw SQL does not reach it. */
  lemma CachedGetIsSingleRow(eng: Engine, given: Query)
    requires SoundQueries(eng) && CanCache(AsGet(eng, given))
    ensures SingleRow(eng, AsGet(eng, given))
  {
    forall rows ensures |eng.select(AsGet(eng, given).key, rows)| <= 1 {
      assert eng.select(eng.limit1(given.key), rows) == First(eng.select(given.key, rows));
    }
  }

  /** The statement with LIMIT 1 gives the first row of the caller's statement. */
  lemma LimitedGetIsFirst(eng: Engine, w: World, given: Query)
    requires SoundQueries(eng)
    ensures PlainGet(eng, w, AsGet(eng, given)) == PlainGet(eng, w, given)
  {
    PlainGetRow(eng, w, given);
    PlainGetRow(eng, w, AsGet(eng, given));
  }

  lemma PlainGetRow(eng: Engine, w: World, q: Query)
    requires SoundQueries(eng)
    ensures
      var ids := Select(eng, w, q);
      PlainGet(eng, w, q) == if ids == [] then None else PlainRow(Rows(w, q.table), ids[0])
  {
    var ids := Select(eng, w, q);
    forall i | 0 <= i < |ids| ensures ids[i] in Rows(w, q.table) {
      assert ids[i] in eng.select(q.key, Rows(w, q.table));
    }
    PresentAll(Lifted(Rows(w, q.table), ids));
  }

  lemma IdsForGetGood(eng: Engine, u: Universe, kindOf: string -> string, w: World, q: Query, now: int)
    requires Good(eng, u, kindOf, w) && Usable(u, q) && SingleRow(eng, q)
    ensures
      var (c, found) := GetIdsForGet(eng, w, q, now);
      && Good(eng, u, kindOf, w.(cache := c))
      && (found.Some? ==> found.value == Select(eng, w, q))
      && (found.None? ==> Select(eng, w, q) == [])
  {
    GetIdsGood(eng, u, kindOf, w, q.table, q.key, now);
    var (c, hit) := GetIds(w.cache, eng.cfg, q.table, q.key, now);
    var ids := Select(eng, w, q);
    assert |ids| <= 1 && (ids != [] ==> ids[..1] == ids);
    assert Rows(w.(cache := c), q.table) == Rows(w, q.table);
    PutIdsGood(eng, u, kindOf, w.(cache := c), q.table, q.key, now);
  }

  /** The cached path of Get, from a good state and for a query of one row. */
  lemma CacheGetFaithful(eng: Engine, u: Universe, kindOf: string -> string, w: World, q: Query, now: int)
    requires Good(eng, u, kindOf, w) && Usable(u, q) && CanCache(q) && SingleRow(eng, q)
    ensures
      var (w', reply) := CacheGet(eng, w, q, kindOf(q.table), now);
      && Good(eng, u, kindOf, w') && w'.tables == w.tables
      && (reply == Got(PlainGet(eng, w, q)) || reply == GetCacheFailed)
  {
    hide Separated, Owned, Coherent, SingleRow;
    PlainGetRow(eng, w, q);
    IdsForGetGood(eng, u, kindOf, w, q, now);
    var (c, found) := GetIdsForGet(eng, w, q, now);
    hide GetIdsForGet, PutBean, GetBean;
    var w1 := w.(cache := c);
    assert Rows(w1, q.table) == Rows(w, q.table) && Keyed(Rows(w, q.table));
    if found.Some? && found.value != [] {
      var id := found.value[0];
      assert id in eng.select(q.key, Rows(w, q.table));
      GetBeanGood(eng, u, kindOf, w1, q.table, id, now);
      var w2 := w1.(cache := GetBean(c, eng.cfg, q.table, id, now).0);
      assert Rows(w2, q.table) == Rows(w, q.table);
      PutBeanGood(eng, u, kindOf, w2, q.table, Rows(w, q.table)[id], now);
    }
  }

  lemma PlainGetTables(eng: Engine, a: World, b: World, q: Query)
    requires a.tables == b.tables
    ensures PlainGet(eng, a, q) == PlainGet(eng, b, q)
  {}

  /** Get from a good state: still good, and the reply is the first row of the caller's
      statement, raw or not, cached or not. */
  lemma GetFaithful(eng: Engine, u: Universe, kindOf: string -> string, w: World, given: Query, now: int)
    requires Good(eng, u, kindOf, w) && (CanCache(given) ==> Usable(u, AsGet(eng, given)))
    ensures
      var (w', reply) := Get(eng, w, given, kindOf(given.table), now);
      && Good(eng, u, kindOf, w') && w'.tables == w.tables
      && reply == Got(PlainGet(eng, w, given))
  {
    var q := AsGet(eng, given);
    LimitedGetIsFirst(eng, w, given);
    if CanCache(q) {
      CachedGetIsSingleRow(eng, given);
      CacheGetFaithful(eng, u, kindOf, w, q, now);
      hide Good, CacheGet, PlainGet, Usable, SoundQueries;
      PlainGetTables(eng, CacheGet(eng, w, q, kindOf(q.table), now).0, w, q);
    }
  }

  // ----- Insert, Update, Delete -----

  /** Once a table's id lists are gone and its beans still fit, its rows may change. */
  lemma AfterChange(eng: Engine, u: Universe, kindOf: string -> string, w: World, t: string, rows: Table, c: Cache)
    requires Good(eng, u, kindOf, w) && Keyed(rows)
    requires Owned(c, eng.cfg, u) && Forgets(w.cache.store, c.store)
    requires forall p :: p in u.sqls && p.0 == t ==> p.1 !in c.store
    requires forall p :: p in u.beans && p.0 == t && BeanKey(p) in c.store && p.1 in Rows(w, t) ==>
               p.1 in rows && rows[p.1] == Rows(w, t)[p.1]
    ensures Good(eng, u, kindOf, World(w.tables[t := rows], c))
  {
    hide Separated, SoundQueries, Owned, Fits, BeanKey, Rows;
    var w' := World(w.tables[t := rows], c);
    TableChanged(w, t, rows, c);
    BeansAfterChange(u, kindOf, w, w', t);
    KeyedAfterChange(w, w', t, rows);
    ListsAfterChange(eng, u, w, w', t);
    hide WellKeyed;
  }

  lemma TableChanged(w: World, t: string, rows: Table, c: Cache)
    ensures Rows(World(w.tables[t := rows], c), t) == rows
    ensures forall x :: x != t ==> Rows(World(w.tables[t := rows], c), x) == Rows(w, x)
  {}

  lemma KeyedAfterChange(w: World, w': World, t: string, rows: Table)
    requires WellKeyed(w) && Keyed(rows) && Rows(w', t) == rows && forall x :: x != t ==> Rows(w', x) == Rows(w, x)
    ensures WellKeyed(w')
  {
    hide Rows;
    forall x ensures Keyed(Rows(w', x)) { assert Keyed(Rows(w, x)); }
  }

  lemma BeansAfterChange(u: Universe, kindOf: string -> string, w: World, w': World, t: string)
    requires forall x :: x != t ==> Rows(w', x) == Rows(w, x)
    requires Forgets(w.cache.store, w'.cache.store)
    requires forall p :: p in u.beans && BeanKey(p) in w.cache.store ==>
               Fits(w.cache.store[BeanKey(p)], Rows(w, p.0), p.1, kindOf(p.0))
    requires forall p :: p in u.beans && p.0 == t && BeanKey(p) in w'.cache.store && p.1 in Rows(w, t) ==>
               p.1 in Rows(w', t) && Rows(w', t)[p.1] == Rows(w, t)[p.1]
    ensures forall p :: p in u.beans && BeanKey(p) in w'.cache.store ==>
              Fits(w'.cache.store[BeanKey(p)], Rows(w', p.0), p.1, kindOf(p.0))
  {
    hide Rows, BeanKey;
  }

  lemma ListsAfterChange(eng: Engine, u: Universe, w: World, w': World, t: string)
    requires forall x :: x != t ==> Rows(w', x) == Rows(w, x)
    requires Forgets(w.cache.store, w'.cache.store)
    requires forall p :: p in u.sqls && p.0 == t ==> p.1 !in w'.cache.store
    requires forall p :: p in u.sqls && p.1 in w.cache.store ==> w.cache.store[p.1] == Ids(eng.select(p.1, Rows(w, p.0)))
    ensures forall p :: p in u.sqls && p.1 in w'.cache.store ==> w'.cache.store[p.1] == Ids(eng.select(p.1, Rows(w', p.0)))
  {
    hide Rows;
  }

  lemma ClearedLists(eng: Engine, u: Universe, c: Cache, t: string)
    requires Separated(u) && Owned(c, eng.cfg, u)
    ensures forall p :: p in u.sqls && p.0 == t ==> p.1 !in ClearIds(c, t).store
  {
    forall p | p in u.sqls && p.0 == t ensures p.1 !in ClearIds(c, t).store {
      ClearIdsIsTotal(c, eng.cfg, u, p);
    }
  }

  lemma InsertGood(eng: Engine, u: Universe, kindOf: string -> string, w: World, t: string, added: Table)
    requires Good(eng, u, kindOf, w) && Keyed(added)
    ensures Good(eng, u, kindOf, Insert(w, t, added))
  {
    if added.Keys !! Rows(w, t).Keys {
      assert Keyed(Rows(w, t));
      ClearIdsOwned(w.cache, eng.cfg, u, t);
      ClearedLists(eng, u, w.cache, t);
      AfterChange(eng, u, kindOf, w, t, Rows(w, t) + added, ClearIds(w.cache, t));
    }
  }

  lemma UpdateGood(eng: Engine, u: Universe, kindOf: string -> string, w: World, t: string, change: Table -> Table)
    requires Good(eng, u, kindOf, w) && Keyed(change(Rows(w, t)))
    ensures Good(eng, u, kindOf, Update(w, t, change))
  {
    var c1 := ClearIds(w.cache, t);
    ClearIdsOwned(w.cache, eng.cfg, u, t);
    ClearedLists(eng, u, w.cache, t);
    ClearBeansOwned(c1, eng.cfg, u, t);
    forall p | p in u.beans && p.0 == t ensures BeanKey(p) !in ClearBeans(c1, t).store {
      ClearBeansIsTotal(c1, eng.cfg, u, p);
    }
    AfterChange(eng, u, kindOf, w, t, change(Rows(w, t)), ClearBeans(c1, t));
  }

  lemma {:induction false} DelBeansGood(eng: Engine, u: Universe, kindOf: string -> string, w: World, t: string, ids: seq<PK>)
    requires Good(eng, u, kindOf, w) && CachedTable(u, t)
    ensures
      var c := DelBeans(w.cache, t, ids);
      && Good(eng, u, kindOf, w.(cache := c)) && Forgets(w.cache.store, c.store)
      && (forall id :: id in ids ==> GenID(t, id) !in c.store)
  {
    if ids != [] {
      var n := |ids| - 1;
      DelBeansGood(eng, u, kindOf, w, t, ids[..n]);
      var w1 := w.(cache := DelBeans(w.cache, t, ids[..n]));
      DelBeanOwned(w1.cache, eng.cfg, u, t, ids[n]);
      AfterForgetting(eng, u, kindOf, w1, DelBean(w1.cache, t, ids[n]));
    }
  }

  lemma DeleteGood(eng: Engine, u: Universe, kindOf: string -> string, w: World, q: Query, now: int)
    requires Good(eng, u, kindOf, w) && Usable(u, q) && q.cacheable
    ensures Good(eng, u, kindOf, Delete(eng, w, q, true, now))
  {
    hide GetIds, DelBeans, Owned, Separated, Coherent, Fits;
    var t, rows := q.table, Rows(w, q.table);
    GetIdsGood(eng, u, kindOf, w, t, q.key, now);
    var w1 := w.(cache := GetIds(w.cache, eng.cfg, t, q.key, now).0);
    assert Rows(w1, t) == rows && Keyed(rows);
    ApplyForgets(w.cache, eng.cfg, Event(OpGetIds(t, q.key), now));
    DelBeansGood(eng, u, kindOf, w1, t, Select(eng, w, q));
    var c2 := DelBeans(w1.cache, t, Select(eng, w, q));
    ClearIdsOwned(c2, eng.cfg, u, t);
    ClearedLists(eng, u, c2, t);
    forall p | p in u.beans && p.0 == t && BeanKey(p) in ClearIds(c2, t).store
      ensures p.1 !in eng.victims(q.key, rows)
    {
      assert BeanKey(p) == GenID(t, p.1) && BeanKey(p) in c2.store;
    }
    AfterChange(eng, u, kindOf, w, t, rows - eng.victims(q.key, rows), ClearIds(c2, t));
  }

  // ----- whole runs -----

  /** The discipline under which the cache is invisible: cacheable queries of cached tables,
      distinct ids on Find, one struct type a table, a RefTable and no `tx` on Delete, and
      writes that keep rows under their own key. */
  ghost predicate Proper(eng: Engine, u: Universe, kindOf: string -> string, w: World, cmd: Command) {
    match cmd
    case DoGet(q, kind) => (CanCache(q) ==> Usable(u, AsGet(eng, q))) && kind == kindOf(q.table)
    case DoFind(q, kind, order) =>
      && (CanCache(q) ==> Usable(u, q)) && kind == kindOf(q.table) && Enumerates(order)
      && (var ids := Select(eng, w, q); forall i, j :: 0 <= i < j < |ids| ==> ids[i] != ids[j])
    case DoInsert(t, added) => Keyed(added)
    case DoUpdate(t, change) => Keyed(change(Rows(w, t)))
    case DoDelete(q, guarded) => Usable(u, q) && q.cacheable && guarded
  }

  ghost predicate ProperRun(eng: Engine, u: Universe, kindOf: string -> string, w: World, steps: seq<Step>)
    decreases |steps|
  {
    steps == [] ||
    (var n := |steps| - 1;
     && ProperRun(eng, u, kindOf, w, steps[..n])
     && Proper(eng, u, kindOf, RunPlain(eng, w, steps[..n]).0, steps[n].cmd))
  }

  lemma StepFaithful(eng: Engine, u: Universe, kindOf: string -> string, w: World, plain: World, s: Step)
    requires Good(eng, u, kindOf, w) && w.tables == plain.tables && Proper(eng, u, kindOf, plain, s.cmd)
    ensures Good(eng, u, kindOf, Exec(eng, w, s).0)
    ensures Exec(eng, w, s).0.tables == ExecPlain(eng, plain, s).0.tables
    ensures Exec(eng, w, s).1 == ExecPlain(eng, plain, s).1
  {
    assert forall t :: Rows(w, t) == Rows(plain, t);
    match s.cmd
    case DoGet(q, kind) => GetFaithful(eng, u, kindOf, w, q, s.now);
    case DoFind(q, kind, order) => FindFaithful(eng, u, kindOf, w, q, order, s.now);
    case DoInsert(t, added) => InsertGood(eng, u, kindOf, w, t, added);
    case DoUpdate(t, change) => UpdateGood(eng, u, kindOf, w, t, change);
    case DoDelete(q, guarded) => DeleteGood(eng, u, kindOf, w, q, s.now);
  }

  /** Over every proper run, at whatever times and however the cache forgets, the cached
      session gives the replies of the plain database and leaves the same tables; and the
      cache stays coherent after every step. */
  lemma {:induction false} CacheIsInvisible(eng: Engine, u: Universe, kindOf: string -> string, w: World, steps: seq<Step>)
    requires Good(eng, u, kindOf, w) && ProperRun(eng, u, kindOf, w, steps)
    ensures Good(eng, u, kindOf, RunCached(eng, w, steps).0)
    ensures RunCached(eng, w, steps).0.tables == RunPlain(eng, w, steps).0.tables
    ensures RunCached(eng, w, steps).1 == RunPlain(eng, w, steps).1
  {
    if steps != [] {
      var n := |steps| - 1;
      CacheIsInvisible(eng, u, kindOf, w, steps[..n]);
      StepFaithful(eng, u, kindOf, RunCached(eng, w, steps[..n]).0, RunPlain(eng, w, steps[..n]).0, steps[n]);
    }
  }

  /** A fresh cacher in front of any database is a good state. */
  lemma FreshIsGood(eng: Engine, u: Universe, kindOf: string -> string, tables: map<string, Table>)
    requires Separated(u) && SoundQueries(eng) && WellKeyed(World(tables, EMPTY))
    ensures Good(eng, u, kindOf, World(tables, EMPTY))
  {}
}
