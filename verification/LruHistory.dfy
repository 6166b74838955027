/** The cacher as a map that may forget: reads against the history of the run. */
module LruHistory {
  import opened Utils
  import opened Values
  import opened LruSpec
  import opened LruInvariant

  // ----- one event against the store -----

  /** Nothing is in `after` that was not in `before` with the same value. */
  ghost predicate Forgets(before: map<string, Value>, after: map<string, Value>) {
    forall k :: k in after ==> k in before && after[k] == before[k]
  }

  /** The store just before an event forgets anything: only a Put adds to it. */
  function Offered(c: Cache, op: Op): map<string, Value> {
    match op
    case OpPutIds(t, q, v) => c.store[q := v]
    case OpPutBean(t, id, v) => c.store[GenID(t, id) := v]
    case _ => c.store
  }

  lemma {:induction false} GcForgets(c: Cache, cfg: Config, now: int, removed: nat)
    ensures Forgets(c.store, GcIds(c, cfg, now, removed).store)
    ensures Forgets(c.store, GcSqls(c, cfg, now, removed).store)
    decreases GC_MAX_REMOVED + 1 - removed
  {
    if removed <= GC_MAX_REMOVED {
      if c.ids != [] {
        GcForgets(DelBean(c, c.ids[0].table, c.ids[0].key), cfg, now, removed + 1);
      }
      if c.sqls != [] {
        GcForgets(DelIds(c, c.sqls[0].table, c.sqls[0].key), cfg, now, removed + 1);
      }
    }
  }

  lemma GcAllForgets(c: Cache, cfg: Config, now: int)
    ensures Forgets(c.store, Gc(c, cfg, now).store)
  {
    GcForgets(c, cfg, now, 0);
    GcForgets(GcIds(c, cfg, now, 0), cfg, now, 0);
  }

  lemma ApplyForgets(c: Cache, cfg: Config, e: Event)
    ensures Forgets(Offered(c, e.op), Apply(c, cfg, e).store)
  {
    match e.op
    case OpGc => GcAllForgets(c, cfg, e.now);
    case _ =>
  }

  // ----- the reference: what a map without eviction would hold -----

  /** The value of the latest PutBean for this id with no later DelBean or ClearBeans. */
  function LatestBean(history: seq<Event>, table: string, id: string): Option<Value> {
    if history == [] then None
    else
      var earlier := history[..|history| - 1];
      match history[|history| - 1].op
      case OpPutBean(t, i, v) => if t == table && i == id then Some(v) else LatestBean(earlier, table, id)
      case OpDelBean(t, i) => if t == table && i == id then None else LatestBean(earlier, table, id)
      case OpClearBeans(t) => if t == table then None else LatestBean(earlier, table, id)
      case _ => LatestBean(earlier, table, id)
  }

  /** The value of the latest PutIds for this sql with no later DelIds or ClearIds. */
  function LatestIds(history: seq<Event>, table: string, sql: string): Option<Value> {
    if history == [] then None
    else
      var earlier := history[..|history| - 1];
      match history[|history| - 1].op
      case OpPutIds(t, q, v) => if t == table && q == sql then Some(v) else LatestIds(earlier, table, sql)
      case OpDelIds(t, q) => if t == table && q == sql then None else LatestIds(earlier, table, sql)
      case OpClearIds(t) => if t == table then None else LatestIds(earlier, table, sql)
      case _ => LatestIds(earlier, table, sql)
  }

  ghost predicate AgreesWithHistory(c: Cache, u: Universe, history: seq<Event>) {
    && (forall p :: p in u.beans && BeanKey(p) in c.store ==> LatestBean(history, p.0, p.1) == Some(c.store[BeanKey(p)]))
    && (forall p :: p in u.sqls && p.1 in c.store ==> LatestIds(history, p.0, p.1) == Some(c.store[p.1]))
  }

  lemma ClearBeansIsTotal(c: Cache, cfg: Config, u: Universe, p: (string, string))
    requires Separated(u) && Owned(c, cfg, u) && p in u.beans
    ensures BeanKey(p) !in ClearBeans(c, p.0).store
  {
    if BeanKey(p) in c.store {
      assert p in Names(c.ids);
      assert p.1 in KeysOf(c.ids, p.0);
    }
  }

  lemma ClearIdsIsTotal(c: Cache, cfg: Config, u: Universe, p: (string, string))
    requires Separated(u) && Owned(c, cfg, u) && p in u.sqls
    ensures p.1 !in ClearIds(c, p.0).store
    ensures Names(ClearIds(c, p.0).sqls) == Names(c.sqls) - TableNames(p.0, KeysOf(c.sqls, p.0))
  {
    WithoutMember(c.sqls, TableNames(p.0, KeysOf(c.sqls, p.0)));
    if p.1 in c.store {
      assert p in Names(c.sqls);
      assert p.1 in KeysOf(c.sqls, p.0);
    }
  }

  lemma StepAgrees(c: Cache, cfg: Config, u: Universe, earlier: seq<Event>, e: Event)
    requires Separated(u) && Owned(c, cfg, u) && Allowed(e.op, u)
    requires AgreesWithHistory(c, u, earlier)
    ensures AgreesWithHistory(Apply(c, cfg, e), u, earlier + [e])
  {
    var after, history := Apply(c, cfg, e), earlier + [e];
    assert history[..|history| - 1] == earlier && history[|history| - 1] == e;
    ApplyForgets(c, cfg, e);
    forall p | p in u.beans && BeanKey(p) in after.store
      ensures LatestBean(history, p.0, p.1) == Some(after.store[BeanKey(p)])
    {
      assert BeanKey(p) in Offered(c, e.op);
      match e.op
      case OpPutBean(t, i, v) => assert BeanKey((t, i)) == GenID(t, i);
      case OpDelBean(t, i) => assert BeanKey((t, i)) == GenID(t, i);
      case OpClearBeans(t) => if t == p.0 { ClearBeansIsTotal(c, cfg, u, p); }
      case OpPutIds(t, q, v) => assert (t, q) in u.sqls && (t, q).1 == q;
      case _ =>
    }
    forall p | p in u.sqls && p.1 in after.store
      ensures LatestIds(history, p.0, p.1) == Some(after.store[p.1])
    {
      assert p.1 in Offered(c, e.op);
      match e.op
      case OpPutBean(t, i, v) => assert BeanKey((t, i)) == GenID(t, i);
      case OpDelIds(t, q) => assert (t, q).1 == q;
      case OpClearIds(t) => if t == p.0 { ClearIdsIsTotal(c, cfg, u, p); }
      case OpPutIds(t, q, v) => assert (t, q) in u.sqls && (t, q).1 == q;
      case _ =>
    }
  }

  /** In every reachable state the store holds, under each key, nothing or the latest Put. */
  lemma {:induction false} RunAgrees(cfg: Config, u: Universe, history: seq<Event>)
    requires Separated(u) && AllAllowed(history, u)
    ensures AgreesWithHistory(Run(cfg, history), u, history)
  {
    if history != [] {
      var earlier, e := history[..|history| - 1], history[|history| - 1];
      RunAgrees(cfg, u, earlier);
      RunOwned(cfg, u, earlier);
      StepAgrees(Run(cfg, earlier), cfg, u, earlier, e);
      assert earlier + [e] == history;
    }
  }

  /** A read never returns a value other than that of the latest Put still in force. */
  lemma ReadsReturnLatestPut(cfg: Config, u: Universe, history: seq<Event>, p: (string, string), now: int)
    requires Separated(u) && AllAllowed(history, u)
    ensures p in u.beans ==> GetBean(Run(cfg, history), cfg, p.0, p.1, now).1 in {None, LatestBean(history, p.0, p.1)}
    ensures p in u.sqls ==> GetIds(Run(cfg, history), cfg, p.0, p.1, now).1 in {None, LatestIds(history, p.0, p.1)}
  {
    RunAgrees(cfg, u, history);
    assert BeanKey(p) == GenID(p.0, p.1);
  }

  // ----- a bean never leaves alone -----

  ghost predicate NoLists(c: Cache, table: string) {
    forall p :: p in Names(c.sqls) ==> p.0 != table
  }

  lemma DelBeanClearsLists(c: Cache, table: string, id: string)
    requires (table, id) in Names(c.ids)
    ensures NoLists(DelBean(c, table, id), table)
    ensures Names(DelBean(c, table, id).ids) == Names(c.ids) - {(table, id)}
    ensures Names(DelBean(c, table, id).sqls) <= Names(c.sqls)
  {
    DelBeanIsShrink(c, table, id);
    WithoutMember(c.ids, {(table, id)});
    WithoutMember(c.sqls, Collateral(c, table, id));
    forall p | p in Names(c.sqls) && p.0 == table ensures p in Collateral(c, table, id) {
      assert p.1 in KeysOf(c.sqls, table) && p == (table, p.1);
    }
  }

  lemma {:induction false} GcIdsClearsLists(c: Cache, cfg: Config, now: int, removed: nat, p: (string, string))
    requires p in Names(c.ids) && p !in Names(GcIds(c, cfg, now, removed).ids)
    ensures NoLists(GcIds(c, cfg, now, removed), p.0)
    decreases GC_MAX_REMOVED + 1 - removed
  {
    FrontName(c.ids);
    var front := (c.ids[0].table, c.ids[0].key);
    var rest := DelBean(c, front.0, front.1);
    DelBeanClearsLists(c, front.0, front.1);
    GcIdsSqlNames(rest, cfg, now, removed + 1);
    if p != front { GcIdsClearsLists(rest, cfg, now, removed + 1, p); }
  }

  lemma {:induction false} GcIdsSqlNames(c: Cache, cfg: Config, now: int, removed: nat)
    ensures Names(GcIds(c, cfg, now, removed).sqls) <= Names(c.sqls)
    decreases GC_MAX_REMOVED + 1 - removed
  {
    if c.ids != [] && removed <= GC_MAX_REMOVED && IsExpired(c.ids[0], now, cfg) {
      FrontName(c.ids);
      DelBeanClearsLists(c, c.ids[0].table, c.ids[0].key);
      GcIdsSqlNames(DelBean(c, c.ids[0].table, c.ids[0].key), cfg, now, removed + 1);
    }
  }

  lemma {:induction false} GcSqlsNames(c: Cache, cfg: Config, now: int, removed: nat)
    ensures Names(GcSqls(c, cfg, now, removed).sqls) <= Names(c.sqls)
    ensures GcSqls(c, cfg, now, removed).ids == c.ids
    decreases GC_MAX_REMOVED + 1 - removed
  {
    if c.sqls != [] && removed <= GC_MAX_REMOVED && IsExpired(c.sqls[0], now, cfg) {
      WithoutMember(c.sqls, {(c.sqls[0].table, c.sqls[0].key)});
      GcSqlsNames(DelIds(c, c.sqls[0].table, c.sqls[0].key), cfg, now, removed + 1);
    }
  }

  /** Eviction, expiry, DelBean or GC: when an indexed bean goes, so does every cached id
      list of its table. ClearBeans is the one operation that keeps the lists. */
  lemma LostBeanLosesLists(c: Cache, cfg: Config, u: Universe, e: Event, p: (string, string))
    requires Separated(u) && Owned(c, cfg, u) && Allowed(e.op, u) && !e.op.OpClearBeans?
    requires p in Names(c.ids) && p !in Names(Apply(c, cfg, e).ids)
    ensures NoLists(Apply(c, cfg, e), p.0)
  {
    match e.op
    case OpGetBean(t, id) =>
      GetBeanOwned(c, cfg, u, t, id, e.now);
      assert BeanKey((t, id)) == GenID(t, id);
      if GenID(t, id) in c.store && !IsExpired(Lookup(c.ids, t, id), e.now, cfg) {
        MoveToBackNames(c.ids, t, id, e.now);
      } else {
        DelBeanIsShrink(c, t, id);
        WithoutMember(c.ids, {(t, id)});
        DelBeanClearsLists(c, t, id);
      }
    case OpPutBean(t, id, v) =>
      EnterNames(c.ids, t, id, e.now);
      var l := Enter(c.ids, t, id, e.now);
      FrontName(l);
      DelBeanClearsLists(c.(ids := l, store := c.store[GenID(t, id) := v]), l[0].table, l[0].key);
    case OpDelBean(t, id) =>
      DelBeanIsShrink(c, t, id);
      WithoutMember(c.ids, {(t, id)});
      DelBeanClearsLists(c, t, id);
    case OpGc =>
      GcSqlsNames(GcIds(c, cfg, e.now, 0), cfg, e.now, 0);
      GcIdsClearsLists(c, cfg, e.now, 0, p);
    case _ =>
  }

  /** ClearBeans alone drops every bean of the table and yet no id list of any table. */
  lemma ClearBeansKeepsLists(c: Cache, table: string)
    ensures KeysOf(ClearBeans(c, table).ids, table) == {}
    ensures ClearBeans(c, table).sqls == c.sqls
    ensures NoLists(ClearBeans(c, table), table) <==> NoLists(c, table)
  {
    WithoutMember(c.ids, TableNames(table, KeysOf(c.ids, table)));
    forall n | n in c.ids && n.table == table ensures Name(n) in TableNames(table, KeysOf(c.ids, table)) {
      assert n.key in KeysOf(c.ids, table);
    }
  }
}
