/** Where the cache does show, and exactly when. */
module CacheCorners {
  import opened Utils
  import opened Values
  import opened LruSpec
  import opened LruInvariant
  import opened LruHistory
  import opened CacheProtocol
  import opened Coherence
  import Tx = TxSpec

  // ----- Get of another struct type -----

  /** Get of a struct type other than the cached one: the assignment panics exactly when the
      query selects a row whose bean the cache still serves. */
  lemma OtherTypePanicsIff(eng: Engine, u: Universe, kindOf: string -> string, w: World, given: Query, kind: string, now: int)
    requires Good(eng, u, kindOf, w) && Usable(u, AsGet(eng, given)) && kind != kindOf(given.table)
    ensures
      var q := AsGet(eng, given);
      Get(eng, w, given, kind, now).1 == GetPanic <==>
        && CanCache(q) && Select(eng, w, q) != []
        && GetBean(GetIdsForGet(eng, w, q, now).0, eng.cfg, q.table, Select(eng, w, q)[0], now).1.Some?
  {
    var q := AsGet(eng, given);
    if CanCache(q) {
      CachedGetIsSingleRow(eng, given);
      PlainGetRow(eng, w, q);
      IdsForGetGood(eng, u, kindOf, w, q, now);
      var (c, found) := GetIdsForGet(eng, w, q, now);
      var w1 := w.(cache := c);
      assert Rows(w1, q.table) == Rows(w, q.table);
      if found.Some? && found.value != [] {
        GetBeanGood(eng, u, kindOf, w1, q.table, found.value[0], now);
      }
    }
  }

  // ----- Delete without invalidation -----

  /** A DELETE with `tx` set, or without a RefTable, skips the invalidation. The cache stays
      coherent exactly when no victim is cached and no cached id list of the table selects
      anything else afterwards. */
  lemma UnguardedDeleteIff(eng: Engine, u: Universe, kindOf: string -> string, w: World, q: Query, now: int)
    requires Good(eng, u, kindOf, w) && CachedTable(u, q.table)
    ensures
      var before := Rows(w, q.table);
      var victims := eng.victims(q.key, before);
      Coherent(eng, u, kindOf, Delete(eng, w, q, false, now)) <==>
        && (forall id :: id in victims ==> GenID(q.table, id) !in w.cache.store)
        && (forall p :: p in u.sqls && p.0 == q.table && p.1 in w.cache.store ==>
              eng.select(p.1, before - victims) == eng.select(p.1, before))
  {
    var before := Rows(w, q.table);
    var victims := eng.victims(q.key, before);
    var w' := Delete(eng, w, q, false, now);
    forall x ensures Rows(w', x) == if x == q.table then before - victims else Rows(w, x) {}
    BeansStillFit(eng, u, kindOf, w, w', q.table, victims);
    ListsStillSelect(eng, u, kindOf, w, w', q.table, victims);
    hide Rows, Good, CachedTable, BeanKey;
  }

  lemma BeansStillFit(eng: Engine, u: Universe, kindOf: string -> string, w: World, w': World, table: string, victims: set<PK>)
    requires Good(eng, u, kindOf, w) && CachedTable(u, table) && w'.cache == w.cache
    requires forall x :: Rows(w', x) == if x == table then Rows(w, table) - victims else Rows(w, x)
    requires victims <= Rows(w, table).Keys
    ensures (forall p :: p in u.beans && BeanKey(p) in w'.cache.store ==>
               Fits(w'.cache.store[BeanKey(p)], Rows(w', p.0), p.1, kindOf(p.0))) <==>
            (forall id :: id in victims ==> GenID(table, id) !in w.cache.store)
  {
    hide Rows, Separated, SoundQueries, WellKeyed, Owned;
    assert forall id :: BeanKey((table, id)) == GenID(table, id);
    if id :| id in victims && GenID(table, id) in w.cache.store {
      assert (table, id) in u.beans && id !in Rows(w', table);
    }
  }

  lemma ListsStillSelect(eng: Engine, u: Universe, kindOf: string -> string, w: World, w': World, table: string, victims: set<PK>)
    requires Good(eng, u, kindOf, w) && w'.cache == w.cache
    requires forall x :: Rows(w', x) == if x == table then Rows(w, table) - victims else Rows(w, x)
    ensures (forall p :: p in u.sqls && p.1 in w'.cache.store ==> w'.cache.store[p.1] == Ids(eng.select(p.1, Rows(w', p.0)))) <==>
            (forall p :: p in u.sqls && p.0 == table && p.1 in w.cache.store ==>
               eng.select(p.1, Rows(w, table) - victims) == eng.select(p.1, Rows(w, table)))
  {
    hide Rows, Separated, SoundQueries, WellKeyed, Owned, Fits;
  }

  /** cacheDelete goes ahead only with a RefTable and while the session holds no transaction. */
  predicate Guarded(s: Tx.State, hasTable: bool) { hasTable && s.tx == None }

  /** Commit and Rollback end a transaction but keep it in the session. So after a successful
      Begin every Delete skips the invalidation, the transaction being over or not, until the
      session is closed. */
  lemma DeletesAfterBeginAreUnguarded(before: seq<Tx.Op>, later: seq<Tx.Op>, hasTable: bool)
    requires Tx.Execute(Tx.NewSession, before).isAutoCommit
    requires forall i :: 0 <= i < |later| ==> !later[i].Close?
    ensures !Guarded(Tx.Execute(Tx.NewSession, before + [Tx.Begin(true)] + later), hasTable)
  {
    Tx.ExecuteLast(Tx.NewSession, before, Tx.Begin(true));
    Tx.ExecuteConcat(Tx.NewSession, before + [Tx.Begin(true)], later);
    Tx.TxKept(Tx.Execute(Tx.NewSession, before + [Tx.Begin(true)]), later);
  }

  // ----- one table, one row -----

  /** One row, selected by every query, twice by the query `twice`: a view that is mapped as a
      table, or a column tagged as key that is not unique. Joins, raw SQL and selects of the
      caller's own do not reach the cached path. */
  function Tiny(): Engine {
    Engine(Config(10, 100),
           (q, rows) => if "1" !in rows then [] else if q == "twice" then ["1", "1"] else ["1"],
           q => "once",
           (q, rows) => if "1" in rows then {"1"} else {})
  }

  const ONE := Row("1", "data")

  function TinyWorld(cache: Cache): World { World(map["t" := map["1" := ONE]], cache) }

  /** The cache after a Get of the row into a struct of type A. */
  const SEEN := Cache([Node("t", "1", 0)], [Node("t", "once", 0)], map["once" := Ids(["1"]), "t-1" := Bean("A", ONE)])

  lemma TinyKeys()
    ensures GenID("t", "1") == "t-1" && "t-1" != "once" && "t-1" != "twice"
  {}

  /** The plain query lists the row twice, the cached Find once. */
  lemma FindLosesRow()
    ensures
      var q := Query("t", "twice", false, true);
      var w := TinyWorld(EMPTY);
      && PlainFind(Tiny(), w, q) == [ONE, ONE]
      && Find(Tiny(), w, q, "A", ids => if "1" in ids then ["1"] else [], 0).1 == Listed([ONE])
  {
    var q, w, eng := Query("t", "twice", false, true), TinyWorld(EMPTY), Tiny();
    var order := (ids: set<PK>) => if "1" in ids then ["1"] else [];
    var rows := Rows(w, "t");
    Twice(rows);
    TinyKeys();
    IdsTwice();
    hide GetIdsForFind, Tiny, Refill, MissIndex, Batch, Probe;
    var c := GetIdsForFind(eng, w, q, 0).0;
    ProbeTwice(eng, c);
    var slots: seq<Option<Row>> := [None, None];
    MissedTwice(slots);
    BatchOfOne(rows, order);
    RefillLast(eng, c, slots);
    LastPresent();
  }

  lemma IdsTwice()
    ensures
      var (c, found) := GetIdsForFind(Tiny(), TinyWorld(EMPTY), Query("t", "twice", false, true), 0);
      && found == Some(["1", "1"]) && c.ids == [] && c.store == map["twice" := Ids(["1", "1"])]
    ensures Select(Tiny(), TinyWorld(EMPTY), Query("t", "twice", false, true)) == ["1", "1"]
  {}

  lemma MissedTwice(slots: seq<Option<Row>>)
    requires slots == [None, None]
    ensures MissIndex(["1", "1"], slots) == map["1" := 1]
  {
    assert ["1", "1"][..1] == ["1"] && ["1"][..0] == [] && slots[..1] == [slots[0]];
  }

  lemma BatchOfOne(rows: Table, order: set<PK> -> seq<PK>)
    requires rows == map["1" := ONE] && order({"1"}) == ["1"]
    ensures Batch(rows, map["1" := 1].Keys, order) == [ONE]
  {
    assert map["1" := 1].Keys * rows.Keys == {"1"};
    var s := seq(1, i requires 0 <= i < 1 => PlainRow(rows, ["1"][i]));
    assert s == [Some(ONE)] && s[..0] == [] && Present([]) == [];
  }

  lemma RefillLast(eng: Engine, c: Cache, slots: seq<Option<Row>>)
    requires slots == [None, None]
    ensures Refill(eng, c, "t", slots, map["1" := 1], [ONE], "A", 0).1 == [None, Some(ONE)]
  {
    assert [ONE][..0] == [];
    assert Refill(eng, c, "t", slots, map["1" := 1], [], "A", 0) == (c, slots);
    hide PutBean;
  }

  lemma LastPresent()
    ensures Present([None, Some(ONE)]) == [ONE]
  {
    var filled := [None, Some(ONE)];
    assert filled[..1] == [None] && filled[..1][..0] == [] && Present([]) == [];
    assert Present(filled[..1]) == [];
  }

  lemma Twice(rows: Table)
    requires rows == map["1" := ONE]
    ensures Present(seq(2, i requires 0 <= i < 2 => PlainRow(rows, ["1", "1"][i]))) == [ONE, ONE]
  {
    var s := seq(2, i requires 0 <= i < 2 => PlainRow(rows, ["1", "1"][i]));
    assert s == [Some(ONE), Some(ONE)] && s[..1] == [Some(ONE)] && s[..1][..0] == [];
    assert Present([]) == [];
  }

  lemma ProbeTwice(eng: Engine, c: Cache)
    requires c.ids == [] && GenID("t", "1") !in c.store
    ensures Probe(eng, c, "t", ["1", "1"], "A", 0) == Probed(c, [None, None])
  {
    var two := ["1", "1"];
    assert two[..1] == ["1"] && ["1"][..0] == [];
    assert GetBean(c, eng.cfg, "t", "1", 0) == (c, None) by { assert c.store - {GenID("t", "1")} == c.store; }
    assert Probe(eng, c, "t", [], "A", 0) == Probed(c, []);
    assert Probe(eng, c, "t", ["1"], "A", 0) == Probed(c, [None]);
  }

  /** A struct of type A is in the cache, and a Get into one of type B panics. */
  lemma OtherTypePanics()
    ensures
      var q := Query("t", "any", false, true);
      && Get(Tiny(), TinyWorld(EMPTY), q, "A", 0) == (TinyWorld(SEEN), Got(Some(ONE)))
      && Get(Tiny(), TinyWorld(SEEN), q, "B", 0).1 == GetPanic
  {
    TinyKeys();
    FirstGet();
    SecondGet();
  }

  lemma SecondGet()
    ensures CacheGet(Tiny(), TinyWorld(SEEN), Query("t", "once", false, true), "B", 0).1 == GetPanic
  {
    var q, w, eng := Query("t", "once", false, true), TinyWorld(SEEN), Tiny();
    TinyKeys();
  }

  lemma FirstGet()
    ensures CacheGet(Tiny(), TinyWorld(EMPTY), Query("t", "once", false, true), "A", 0) == (TinyWorld(SEEN), Got(Some(ONE)))
  {
    var q, w, eng := Query("t", "once", false, true), TinyWorld(EMPTY), Tiny();
    TinyKeys();
    var c1 := Cache([], [Node("t", "once", 0)], map["once" := Ids(["1"])]);
    assert Select(eng, w, q) == ["1"] && ["1"][..1] == ["1"];
    assert GetIds(EMPTY, eng.cfg, "t", "once", 0) == (EMPTY, None) by { assert EMPTY.store - {"once"} == map[]; }
    assert PutIds(EMPTY, eng.cfg, "t", "once", Ids(["1"]), 0) == c1 by { assert [] + [Node("t", "once", 0)] == [Node("t", "once", 0)]; }
    assert GetIdsForGet(eng, w, q, 0) == (c1, Some(["1"]));
    assert GetBean(c1, eng.cfg, "t", "1", 0) == (c1, None) by { assert c1.store - {"t-1"} == c1.store; }
    var s := seq(1, i requires 0 <= i < 1 => PlainRow(Rows(w, "t"), ["1"][i]));
    assert s == [Some(ONE)] && s[..0] == [] && Present([]) == [] && Present(s) == [ONE];
    assert PlainGet(eng, w, q) == Some(ONE);
    assert PutBean(c1, eng.cfg, "t", "1", Bean("A", ONE), 0) == SEEN by { assert [] + [Node("t", "1", 0)] == [Node("t", "1", 0)]; }
  }

  /** The row is deleted in a session that has once begun a transaction, and the cache still
      serves it. */
  lemma StaleBean()
    ensures
      var w := Delete(Tiny(), TinyWorld(SEEN), Query("t", "any", false, true), false, 0);
      && "1" !in Rows(w, "t")
      && GetBean(w.cache, Tiny().cfg, "t", "1", 0).1 == Some(Bean("A", ONE))
  {
    TinyKeys();
  }
}
