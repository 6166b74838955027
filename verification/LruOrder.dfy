/** What garbage collection removes, and when the lists are in order of last visit. */
module LruOrder {
  import opened Utils
  import opened Values
  import opened LruSpec
  import opened LruInvariant
  import opened LruHistory

  // ----- garbage collection, in closed form -----

  /** The length of the longest prefix whose nodes are all expired. */
  function ExpiredPrefix(l: seq<Node>, now: int, cfg: Config): (n: nat)
    ensures n <= |l|
    ensures forall i :: 0 <= i < n ==> IsExpired(l[i], now, cfg)
    ensures n < |l| ==> !IsExpired(l[n], now, cfg)
  {
    if l != [] && IsExpired(l[0], now, cfg) then 1 + ExpiredPrefix(l[1..], now, cfg) else 0
  }

  function Quota(l: seq<Node>, now: int, cfg: Config, limit: nat): (n: nat)
    ensures n <= |l|
  {
    var p := ExpiredPrefix(l, now, cfg);
    if p < limit then p else limit
  }

  function OfTables(l: seq<Node>, tables: set<string>): set<(string, string)> {
    set p | p in Names(l) && p.0 in tables
  }

  function TablesOf(l: seq<Node>): set<string> { set n | n in l :: n.table }

  lemma {:induction false} WithoutSame(l: seq<Node>, a: set<(string, string)>, b: set<(string, string)>)
    requires forall p :: p in Names(l) ==> (p in a <==> p in b)
    ensures Without(l, a) == Without(l, b)
  {
    if l != [] {
      assert l[0] in l && Name(l[0]) in Names(l);
      assert forall n :: n in l[1..] ==> n in l;
      WithoutSame(l[1..], a, b);
    }
  }

  lemma WithoutFront(l: seq<Node>)
    requires Distinct(l) && l != []
    ensures Without(l, {Name(l[0])}) == l[1..]
  {
    forall n | n in l[1..] ensures Name(n) != Name(l[0]) {
      var k :| 0 <= k < |l[1..]| && l[1..][k] == n;
      assert Name(l[0]) != Name(l[k + 1]);
    }
    WithoutNothing(l[1..], {Name(l[0])});
  }

  lemma DelFrontBean(c: Cache)
    requires Distinct(c.ids) && c.ids != []
    ensures
      var rest := DelBean(c, c.ids[0].table, c.ids[0].key);
      rest.ids == c.ids[1..] && rest.sqls == Without(c.sqls, OfTables(c.sqls, {c.ids[0].table}))
  {
    var t := c.ids[0].table;
    FrontName(c.ids);
    WithoutFront(c.ids);
    forall p | p in Names(c.sqls) && p.0 == t ensures p in TableNames(t, KeysOf(c.sqls, t)) {
      assert p.1 in KeysOf(c.sqls, t) && p == (t, p.1);
    }
    WithoutSame(c.sqls, TableNames(t, KeysOf(c.sqls, t)), OfTables(c.sqls, {t}));
  }

  lemma WithoutTablesTwice(l: seq<Node>, a: set<string>, b: set<string>)
    ensures
      var once := Without(l, OfTables(l, a));
      Without(once, OfTables(once, b)) == Without(l, OfTables(l, a + b))
  {
    var once := Without(l, OfTables(l, a));
    WithoutMember(l, OfTables(l, a));
    WithoutTwice(l, OfTables(l, a), OfTables(once, b));
    WithoutSame(l, OfTables(l, a) + OfTables(once, b), OfTables(l, a + b));
  }

  lemma FrontTables(l: seq<Node>, n: nat)
    requires 0 < n <= |l|
    ensures TablesOf(l[..n]) == {l[0].table} + TablesOf(l[1..][..n - 1]) && l[1..][n - 1..] == l[n..]
  {
    assert l[..n] == [l[0]] + l[1..][..n - 1];
  }

  lemma NothingOfTables(l: seq<Node>)
    ensures Without(l, OfTables(l, TablesOf([]))) == l
  {
    assert TablesOf([]) == {};
    WithoutNothing(l, OfTables(l, {}));
  }

  lemma {:induction false} GcIdsExact(c: Cache, cfg: Config, now: int, removed: nat)
    requires Distinct(c.ids) && removed <= GC_MAX_REMOVED + 1
    ensures
      var n := Quota(c.ids, now, cfg, GC_MAX_REMOVED + 1 - removed);
      var mid := GcIds(c, cfg, now, removed);
      && mid.ids == c.ids[n..]
      && mid.sqls == Without(c.sqls, OfTables(c.sqls, TablesOf(c.ids[..n])))
    decreases GC_MAX_REMOVED + 1 - removed
  {
    hide DelBean, Without, OfTables, TablesOf;
    var n := Quota(c.ids, now, cfg, GC_MAX_REMOVED + 1 - removed);
    if c.ids != [] && removed <= GC_MAX_REMOVED && IsExpired(c.ids[0], now, cfg) {
      var rest := DelBean(c, c.ids[0].table, c.ids[0].key);
      DelFrontBean(c);
      GcIdsExact(rest, cfg, now, removed + 1);
      assert Quota(rest.ids, now, cfg, GC_MAX_REMOVED - removed) == n - 1;
      FrontTables(c.ids, n);
      WithoutTablesTwice(c.sqls, {c.ids[0].table}, TablesOf(rest.ids[..n - 1]));
    } else {
      assert n == 0 && c.ids[..0] == [];
      NothingOfTables(c.sqls);
    }
  }

  lemma {:induction false} GcSqlsExact(c: Cache, cfg: Config, now: int, removed: nat)
    requires Distinct(c.sqls) && removed <= GC_MAX_REMOVED + 1
    ensures GcSqls(c, cfg, now, removed).sqls == c.sqls[Quota(c.sqls, now, cfg, GC_MAX_REMOVED + 1 - removed)..]
    decreases GC_MAX_REMOVED + 1 - removed
  {
    hide Without, Quota;
    var n := GC_MAX_REMOVED + 1 - removed;
    QuotaStep(c.sqls, now, cfg, n);
    if c.sqls != [] && removed <= GC_MAX_REMOVED && IsExpired(c.sqls[0], now, cfg) {
      WithoutFront(c.sqls);
      var q := Quota(c.sqls[1..], now, cfg, n - 1);
      assert c.sqls[1..][q..] == c.sqls[q + 1..];
      GcSqlsExact(DelIds(c, c.sqls[0].table, c.sqls[0].key), cfg, now, removed + 1);
      hide Distinct;
    }
  }

  lemma QuotaStep(l: seq<Node>, now: int, cfg: Config, n: nat)
    ensures Quota(l, now, cfg, n) ==
            if l != [] && n > 0 && IsExpired(l[0], now, cfg) then 1 + Quota(l[1..], now, cfg, n - 1) else 0
  {}

  /** One GC run drops from the front of each list its longest expired prefix, at most 21
      entries of each; the id lists of the tables whose beans went are dropped in between. */
  lemma GcExact(c: Cache, cfg: Config, now: int)
    requires Distinct(c.ids) && Distinct(c.sqls)
    ensures
      var n := Quota(c.ids, now, cfg, 21);
      var left := Without(c.sqls, OfTables(c.sqls, TablesOf(c.ids[..n])));
      && Gc(c, cfg, now).ids == c.ids[n..]
      && Gc(c, cfg, now).sqls == left[Quota(left, now, cfg, 21)..]
  {
    GcIdsExact(c, cfg, now, 0);
    var mid := GcIds(c, cfg, now, 0);
    WithoutDistinct(c.sqls, OfTables(c.sqls, TablesOf(c.ids[..Quota(c.ids, now, cfg, 21)])));
    GcSqlsExact(mid, cfg, now, 0);
    GcSqlsNames(mid, cfg, now, 0);
  }

  // ----- recency order -----

  ghost predicate Sorted(l: seq<Node>) {
    forall i, j :: 0 <= i < j < |l| ==> l[i].lastVisit <= l[j].lastVisit
  }

  ghost predicate VisitedBy(l: seq<Node>, now: int) {
    forall n :: n in l ==> n.lastVisit <= now
  }

  lemma {:induction false} WithoutSorted(l: seq<Node>, dead: set<(string, string)>)
    requires Sorted(l)
    ensures Sorted(Without(l, dead))
  {
    if l != [] {
      WithoutSorted(l[1..], dead);
      WithoutMember(l[1..], dead);
      var r := Without(l[1..], dead);
      forall j | 0 <= j < |r| ensures l[0].lastVisit <= r[j].lastVisit {
        assert r[j] in r && r[j] in l[1..];
      }
    }
  }

  lemma AppendSorted(l: seq<Node>, n: Node)
    requires Sorted(l) && VisitedBy(l, n.lastVisit)
    ensures Sorted(l + [n]) && VisitedBy(l + [n], n.lastVisit)
  {
    assert forall i :: 0 <= i < |l| ==> l[i] in l;
    assert forall m :: m in l + [n] <==> m in l || m == n;
  }

  /** Putting a present key restamps its node where it stands: order survives exactly when
      everything behind it was visited at this very instant. */
  lemma PutPresentKeepsOrderIff(l: seq<Node>, i: nat, now: int)
    requires Sorted(l) && Distinct(l) && VisitedBy(l, now) && i < |l|
    ensures Sorted(Stamp(l, l[i].table, l[i].key, now)) <==> forall j :: i < j < |l| ==> l[j].lastVisit == now
  {
    var r := Stamp(l, l[i].table, l[i].key, now);
    assert forall j :: 0 <= j < |l| && j != i ==> Name(l[j]) != Name(l[i]);
    assert forall j :: 0 <= j < |l| && j != i ==> r[j] == l[j];
    assert r[i].lastVisit == now;
    assert forall j :: 0 <= j < |l| ==> l[j] in l && l[j].lastVisit <= now;
  }

  ghost predicate Ordered(c: Cache, now: int) {
    Sorted(c.ids) && Sorted(c.sqls) && VisitedBy(c.ids, now) && VisitedBy(c.sqls, now)
  }

  /** The event puts nothing under a name that is already listed. */
  ghost predicate PutsAbsent(c: Cache, op: Op) {
    match op
    case OpPutIds(t, q, _) => (t, q) !in Names(c.sqls)
    case OpPutBean(t, id, _) => (t, id) !in Names(c.ids)
    case _ => true
  }

  lemma ShrinkOrdered(c: Cache, beans: set<(string, string)>, sqls: set<(string, string)>, now: int)
    requires Ordered(c, now)
    ensures Ordered(Shrink(c, beans, sqls), now)
  {
    WithoutSorted(c.ids, beans);
    WithoutSorted(c.sqls, sqls);
    WithoutMember(c.ids, beans);
    WithoutMember(c.sqls, sqls);
  }

  lemma DropSorted(l: seq<Node>, n: nat, now: int)
    requires Sorted(l) && VisitedBy(l, now) && n <= |l|
    ensures Sorted(l[n..]) && VisitedBy(l[n..], now)
  {}

  lemma GetIdsOrdered(c: Cache, cfg: Config, t: string, q: string, now: int)
    requires Ordered(c, now)
    ensures Ordered(GetIds(c, cfg, t, q, now).0, now)
  {
    DelIdsIsShrink(c, t, q);
    ShrinkOrdered(c, {}, {(t, q)}, now);
    WithoutSorted(c.sqls, {(t, q)});
    WithoutMember(c.sqls, {(t, q)});
    AppendSorted(Without(c.sqls, {(t, q)}), Node(t, q, now));
    AppendSorted(c.sqls, Node(t, q, now));
    hide DelIds, Shrink, Sorted, VisitedBy;
  }

  lemma GetBeanOrdered(c: Cache, cfg: Config, t: string, id: string, now: int)
    requires Ordered(c, now)
    ensures Ordered(GetBean(c, cfg, t, id, now).0, now)
  {
    DelBeanIsShrink(c, t, id);
    ShrinkOrdered(c, {(t, id)}, Collateral(c, t, id), now);
    WithoutSorted(c.ids, {(t, id)});
    WithoutMember(c.ids, {(t, id)});
    AppendSorted(Without(c.ids, {(t, id)}), Node(t, id, now));
    AppendSorted(c.ids, Node(t, id, now));
    hide DelBean, Shrink, Sorted, VisitedBy;
  }

  lemma PutIdsOrdered(c: Cache, cfg: Config, t: string, q: string, v: Value, now: int)
    requires Ordered(c, now) && (t, q) !in Names(c.sqls)
    ensures Ordered(PutIds(c, cfg, t, q, v, now), now)
  {
    AppendSorted(c.sqls, Node(t, q, now));
    var stored := c.(sqls := Enter(c.sqls, t, q, now), store := c.store[q := v]);
    DelIdsIsShrink(stored, stored.sqls[0].table, stored.sqls[0].key);
    ShrinkOrdered(stored, {}, {(stored.sqls[0].table, stored.sqls[0].key)}, now);
    hide DelIds, Shrink, Sorted, VisitedBy;
  }

  lemma PutBeanOrdered(c: Cache, cfg: Config, t: string, id: string, v: Value, now: int)
    requires Ordered(c, now) && (t, id) !in Names(c.ids)
    ensures Ordered(PutBean(c, cfg, t, id, v, now), now)
  {
    AppendSorted(c.ids, Node(t, id, now));
    var stored := c.(ids := Enter(c.ids, t, id, now), store := c.store[GenID(t, id) := v]);
    DelBeanIsShrink(stored, stored.ids[0].table, stored.ids[0].key);
    ShrinkOrdered(stored, {(stored.ids[0].table, stored.ids[0].key)},
                  Collateral(stored, stored.ids[0].table, stored.ids[0].key), now);
    hide DelBean, Shrink, Sorted, VisitedBy;
  }

  lemma ApplyOrdered(c: Cache, cfg: Config, e: Event)
    requires Distinct(c.ids) && Distinct(c.sqls) && Ordered(c, e.now) && PutsAbsent(c, e.op)
    ensures Ordered(Apply(c, cfg, e), e.now)
  {
    hide Ordered, Shrink, GetIds, GetBean, PutIds, PutBean, DelIds, DelBean, ClearIds, ClearBeans, Gc;
    hide Distinct, Collateral, TableNames, KeysOf;
    match e.op
    case OpGetIds(t, q) => GetIdsOrdered(c, cfg, t, q, e.now);
    case OpGetBean(t, id) => GetBeanOrdered(c, cfg, t, id, e.now);
    case OpPutIds(t, q, v) => PutIdsOrdered(c, cfg, t, q, v, e.now);
    case OpPutBean(t, id, v) => PutBeanOrdered(c, cfg, t, id, v, e.now);
    case OpDelIds(t, q) =>
      DelIdsIsShrink(c, t, q);
      ShrinkOrdered(c, {}, {(t, q)}, e.now);
    case OpDelBean(t, id) =>
      DelBeanIsShrink(c, t, id);
      ShrinkOrdered(c, {(t, id)}, Collateral(c, t, id), e.now);
    case OpClearIds(t) =>
      ClearIdsIsShrink(c, t);
      ShrinkOrdered(c, {}, TableNames(t, KeysOf(c.sqls, t)), e.now);
    case OpClearBeans(t) =>
      ClearBeansIsShrink(c, t);
      ShrinkOrdered(c, TableNames(t, KeysOf(c.ids, t)), {}, e.now);
    case OpGc => GcOrdered(c, cfg, e.now);
  }

  lemma GcOrdered(c: Cache, cfg: Config, now: int)
    requires Distinct(c.ids) && Distinct(c.sqls) && Ordered(c, now)
    ensures Ordered(Gc(c, cfg, now), now)
  {
    GcExact(c, cfg, now);
    var n := Quota(c.ids, now, cfg, 21);
    var dead := OfTables(c.sqls, TablesOf(c.ids[..n]));
    DropSorted(c.ids, n, now);
    WithoutSorted(c.sqls, dead);
    WithoutMember(c.sqls, dead);
    DropSorted(Without(c.sqls, dead), Quota(Without(c.sqls, dead), now, cfg, 21), now);
  }

  /** The clock never runs backwards and no Put hits a listed key. */
  ghost predicate Disciplined(cfg: Config, history: seq<Event>)
    decreases |history|
  {
    history == [] ||
    (var earlier, e := history[..|history| - 1], history[|history| - 1];
     && Disciplined(cfg, earlier)
     && (earlier != [] ==> earlier[|earlier| - 1].now <= e.now)
     && PutsAbsent(Run(cfg, earlier), e.op))
  }

  lemma {:induction false} RunOrdered(cfg: Config, u: Universe, history: seq<Event>)
    requires Separated(u) && AllAllowed(history, u) && Disciplined(cfg, history)
    ensures history == [] ==> Run(cfg, history) == EMPTY
    ensures history != [] ==> Ordered(Run(cfg, history), history[|history| - 1].now)
  {
    if history != [] {
      var earlier, e := history[..|history| - 1], history[|history| - 1];
      RunOrdered(cfg, u, earlier);
      RunOwned(cfg, u, earlier);
      ApplyOrdered(Run(cfg, earlier), cfg, e);
    }
  }

  /** From the first list to the second, the oldest entries are gone, and no expired one is left
      unless 21 are gone. */
  ghost predicate OldestGone(l: seq<Node>, after: seq<Node>, now: int, cfg: Config) {
    var gone := Quota(l, now, cfg, 21);
    && after == l[gone..]
    && (forall n, m :: n in l[..gone] && m in l[gone..] ==> n.lastVisit <= m.lastVisit)
    && (gone < 21 ==> forall n :: n in l[gone..] ==> !IsExpired(n, now, cfg))
  }

  lemma QuotaTakesOldest(l: seq<Node>, now: int, cfg: Config)
    requires Sorted(l)
    ensures OldestGone(l, l[Quota(l, now, cfg, 21)..], now, cfg)
  {
    var k := ExpiredPrefix(l, now, cfg);
    assert forall i :: k < i < |l| ==> l[k].lastVisit <= l[i].lastVisit;
  }

  /** The id lists that are left when the beans, and the lists of their tables, have gone. */
  function Left(c: Cache, cfg: Config, now: int): seq<Node> {
    Without(c.sqls, OfTables(c.sqls, TablesOf(c.ids[..Quota(c.ids, now, cfg, 21)])))
  }

  lemma GcTakesOldest(c: Cache, cfg: Config, now: int)
    requires Distinct(c.ids) && Distinct(c.sqls) && Sorted(c.ids) && Sorted(c.sqls)
    ensures OldestGone(c.ids, Gc(c, cfg, now).ids, now, cfg)
    ensures OldestGone(Left(c, cfg, now), Gc(c, cfg, now).sqls, now, cfg)
  {
    GcExact(c, cfg, now);
    QuotaTakesOldest(c.ids, now, cfg);
    WithoutSorted(c.sqls, OfTables(c.sqls, TablesOf(c.ids[..Quota(c.ids, now, cfg, 21)])));
    QuotaTakesOldest(Left(c, cfg, now), now, cfg);
  }

  /** Eviction: the front goes, and nothing was visited before it. */
  ghost predicate OldestEvicted(l: seq<Node>, after: seq<Node>, entered: Node) {
    l != [] && after == l[1..] + [entered] && forall m :: m in l ==> l[0].lastVisit <= m.lastVisit
  }

  lemma PutEvictsOldest(c: Cache, cfg: Config, t: string, key: string, v: Value, now: int)
    ensures Distinct(c.ids) && Sorted(c.ids) && (t, key) !in Names(c.ids) && |c.ids| >= cfg.maxElementSize && c.ids != [] ==>
      OldestEvicted(c.ids, PutBean(c, cfg, t, key, v, now).ids, Node(t, key, now))
    ensures Distinct(c.sqls) && Sorted(c.sqls) && (t, key) !in Names(c.sqls) && |c.sqls| >= cfg.maxElementSize && c.sqls != [] ==>
      OldestEvicted(c.sqls, PutIds(c, cfg, t, key, v, now).sqls, Node(t, key, now))
  {
    hide Names, Without, Distinct, Sorted, Enter, PutBean, PutIds, OldestEvicted;
    if Distinct(c.ids) && Sorted(c.ids) && (t, key) !in Names(c.ids) && |c.ids| >= cfg.maxElementSize && c.ids != [] {
      FullList(c.ids, t, key, now);
      PutBeanEvicts(c, cfg, t, key, v, now);
    }
    if Distinct(c.sqls) && Sorted(c.sqls) && (t, key) !in Names(c.sqls) && |c.sqls| >= cfg.maxElementSize && c.sqls != [] {
      FullList(c.sqls, t, key, now);
      PutIdsEvicts(c, cfg, t, key, v, now);
    }
  }

  lemma FullList(l: seq<Node>, t: string, key: string, now: int)
    requires Distinct(l) && Sorted(l) && (t, key) !in Names(l) && l != []
    ensures
      var more := Enter(l, t, key, now);
      && more == l + [Node(t, key, now)] && Distinct(more) && more[1..] == l[1..] + [Node(t, key, now)]
      && OldestEvicted(l, more[1..], Node(t, key, now))
  {
    EnterNames(l, t, key, now);
    assert forall m :: m in l ==> l[0].lastVisit <= m.lastVisit;
    hide Names, Distinct;
  }

  lemma PutBeanEvicts(c: Cache, cfg: Config, t: string, key: string, v: Value, now: int)
    requires Distinct(Enter(c.ids, t, key, now)) && |Enter(c.ids, t, key, now)| > cfg.maxElementSize
    ensures PutBean(c, cfg, t, key, v, now).ids == Enter(c.ids, t, key, now)[1..]
  {
    hide Enter, DelBean, Distinct;
    DelFrontBean(c.(ids := Enter(c.ids, t, key, now), store := c.store[GenID(t, key) := v]));
  }

  lemma PutIdsEvicts(c: Cache, cfg: Config, t: string, key: string, v: Value, now: int)
    requires Distinct(Enter(c.sqls, t, key, now)) && |Enter(c.sqls, t, key, now)| > cfg.maxElementSize
    ensures PutIds(c, cfg, t, key, v, now).sqls == Enter(c.sqls, t, key, now)[1..]
  {
    hide Enter, Without, Distinct;
    WithoutFront(Enter(c.sqls, t, key, now));
  }

  /** In a disciplined run GC takes the oldest beans, and the oldest of the id lists then left,
      and leaves no expired one unless it has already removed 21; eviction by a Put takes a
      least recently visited bean or id list. */
  lemma OldestGoFirst(cfg: Config, u: Universe, history: seq<Event>, t: string, key: string, v: Value, now: int)
    requires Separated(u) && AllAllowed(history, u) && Disciplined(cfg, history)
    ensures
      var c := Run(cfg, history);
      && OldestGone(c.ids, Gc(c, cfg, now).ids, now, cfg)
      && OldestGone(Left(c, cfg, now), Gc(c, cfg, now).sqls, now, cfg)
    ensures
      var c := Run(cfg, history);
      && ((t, key) !in Names(c.ids) && |c.ids| >= cfg.maxElementSize && c.ids != [] ==>
            OldestEvicted(c.ids, PutBean(c, cfg, t, key, v, now).ids, Node(t, key, now)))
      && ((t, key) !in Names(c.sqls) && |c.sqls| >= cfg.maxElementSize && c.sqls != [] ==>
            OldestEvicted(c.sqls, PutIds(c, cfg, t, key, v, now).sqls, Node(t, key, now)))
  {
    var c := Run(cfg, history);
    RunOrdered(cfg, u, history);
    RunOwned(cfg, u, history);
    GcTakesOldest(c, cfg, now);
    PutEvictsOldest(c, cfg, t, key, v, now);
  }
}
