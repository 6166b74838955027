/** The lists against the history of the run: who was visited when, and what each call does next. */
module LruVisits {
  import opened Utils
  import opened Values
  import opened LruSpec
  import opened LruInvariant
  import opened LruHistory
  import opened LruOrder

  // ----- the time of the latest visit -----

  /** The time of the latest Get or Put of the bean. */
  function BeanVisit(history: seq<Event>, p: (string, string)): Option<int> {
    if history == [] then None
    else
      var e := history[|history| - 1];
      if (e.op.OpGetBean? || e.op.OpPutBean?) && (e.op.table, e.op.id) == p then Some(e.now)
      else BeanVisit(history[..|history| - 1], p)
  }

  /** The time of the latest Get or Put of the id list. */
  function IdsVisit(history: seq<Event>, p: (string, string)): Option<int> {
    if history == [] then None
    else
      var e := history[|history| - 1];
      if (e.op.OpGetIds? || e.op.OpPutIds?) && (e.op.table, e.op.sql) == p then Some(e.now)
      else IdsVisit(history[..|history| - 1], p)
  }

  /** Each node of `after` is new, or one of `before` and not of that name. */
  ghost predicate Renewed(before: seq<Node>, after: seq<Node>, p: (string, string), now: int) {
    forall n :: n in after ==> n == Node(p.0, p.1, now) || (n in before && Name(n) != p)
  }

  ghost predicate Fewer(before: seq<Node>, after: seq<Node>) { forall n :: n in after ==> n in before }

  lemma ShrinkFewer(c: Cache, beans: set<(string, string)>, sqls: set<(string, string)>)
    ensures Fewer(c.ids, Shrink(c, beans, sqls).ids) && Fewer(c.sqls, Shrink(c, beans, sqls).sqls)
    ensures forall n :: n in Shrink(c, beans, sqls).ids ==> Name(n) !in beans
    ensures forall n :: n in Shrink(c, beans, sqls).sqls ==> Name(n) !in sqls
  {
    WithoutMember(c.ids, beans);
    WithoutMember(c.sqls, sqls);
  }

  lemma DelIdsFewer(c: Cache, t: string, q: string)
    ensures DelIds(c, t, q).ids == c.ids && Fewer(c.sqls, DelIds(c, t, q).sqls)
    ensures forall n :: n in DelIds(c, t, q).sqls ==> Name(n) != (t, q)
  {
    WithoutMember(c.sqls, {(t, q)});
  }

  lemma DelBeanFewer(c: Cache, t: string, id: string)
    ensures Fewer(c.ids, DelBean(c, t, id).ids) && Fewer(c.sqls, DelBean(c, t, id).sqls)
    ensures forall n :: n in DelBean(c, t, id).ids ==> Name(n) != (t, id)
  {
    DelBeanIsShrink(c, t, id);
    ShrinkFewer(c, {(t, id)}, Collateral(c, t, id));
  }

  lemma NotListed(l: seq<Node>, p: (string, string))
    requires p !in Names(l)
    ensures forall n :: n in l ==> Name(n) != p
  {
    forall n | n in l ensures Name(n) != p { assert Name(n) in Names(l); }
  }

  lemma EnterRenews(l: seq<Node>, t: string, key: string, now: int)
    ensures Renewed(l, Enter(l, t, key, now), (t, key), now)
  {
    if (t, key) !in Names(l) { NotListed(l, (t, key)); }
    forall n | n in Enter(l, t, key, now) ensures n == Node(t, key, now) || (n in l && Name(n) != (t, key)) {
      if (t, key) in Names(l) {
        var i :| 0 <= i < |l| && Stamp(l, t, key, now)[i] == n;
        assert l[i] in l;
      }
    }
  }

  lemma MoveRenews(l: seq<Node>, t: string, key: string, now: int)
    ensures Renewed(l, MoveToBack(l, t, key, now), (t, key), now)
  {
    WithoutMember(l, {(t, key)});
  }

  lemma GetBeanRenews(c: Cache, cfg: Config, t: string, id: string, now: int)
    ensures
      var after := GetBean(c, cfg, t, id, now).0;
      Renewed(c.ids, after.ids, (t, id), now) && Fewer(c.sqls, after.sqls)
  {
    DelBeanFewer(c, t, id);
    MoveRenews(c.ids, t, id, now);
    if (t, id) !in Names(c.ids) { NotListed(c.ids, (t, id)); }
    hide DelBean, MoveToBack, Names;
  }

  lemma GetIdsRenews(c: Cache, cfg: Config, t: string, q: string, now: int)
    ensures
      var after := GetIds(c, cfg, t, q, now).0;
      Renewed(c.sqls, after.sqls, (t, q), now) && after.ids == c.ids
  {
    DelIdsFewer(c, t, q);
    MoveRenews(c.sqls, t, q, now);
    if (t, q) !in Names(c.sqls) { NotListed(c.sqls, (t, q)); }
    hide DelIds, MoveToBack, Names;
  }

  lemma PutBeanRenews(c: Cache, cfg: Config, t: string, id: string, v: Value, now: int)
    ensures
      var after := PutBean(c, cfg, t, id, v, now);
      Renewed(c.ids, after.ids, (t, id), now) && Fewer(c.sqls, after.sqls)
  {
    EnterRenews(c.ids, t, id, now);
    var stored := c.(ids := Enter(c.ids, t, id, now), store := c.store[GenID(t, id) := v]);
    DelBeanFewer(stored, stored.ids[0].table, stored.ids[0].key);
    hide DelBean, Enter;
  }

  lemma PutIdsRenews(c: Cache, cfg: Config, t: string, q: string, v: Value, now: int)
    ensures
      var after := PutIds(c, cfg, t, q, v, now);
      Renewed(c.sqls, after.sqls, (t, q), now) && after.ids == c.ids
  {
    EnterRenews(c.sqls, t, q, now);
    var stored := c.(sqls := Enter(c.sqls, t, q, now), store := c.store[q := v]);
    DelIdsFewer(stored, stored.sqls[0].table, stored.sqls[0].key);
    hide DelIds, Enter;
  }

  lemma {:induction false} GcIdsFewer(c: Cache, cfg: Config, now: int, removed: nat)
    ensures Fewer(c.ids, GcIds(c, cfg, now, removed).ids) && Fewer(c.sqls, GcIds(c, cfg, now, removed).sqls)
    decreases GC_MAX_REMOVED + 1 - removed
  {
    hide DelBean;
    if c.ids != [] && removed <= GC_MAX_REMOVED {
      DelBeanFewer(c, c.ids[0].table, c.ids[0].key);
      GcIdsFewer(DelBean(c, c.ids[0].table, c.ids[0].key), cfg, now, removed + 1);
    }
  }

  lemma {:induction false} GcSqlsFewer(c: Cache, cfg: Config, now: int, removed: nat)
    ensures GcSqls(c, cfg, now, removed).ids == c.ids && Fewer(c.sqls, GcSqls(c, cfg, now, removed).sqls)
    decreases GC_MAX_REMOVED + 1 - removed
  {
    hide DelIds;
    if c.sqls != [] && removed <= GC_MAX_REMOVED {
      DelIdsFewer(c, c.sqls[0].table, c.sqls[0].key);
      GcSqlsFewer(DelIds(c, c.sqls[0].table, c.sqls[0].key), cfg, now, removed + 1);
    }
  }

  /** What one event may do to the nodes of the two lists. */
  lemma ApplyRenews(c: Cache, cfg: Config, e: Event)
    ensures
      var after := Apply(c, cfg, e);
      && (if e.op.OpGetBean? || e.op.OpPutBean? then Renewed(c.ids, after.ids, (e.op.table, e.op.id), e.now)
          else Fewer(c.ids, after.ids))
      && (if e.op.OpGetIds? || e.op.OpPutIds? then Renewed(c.sqls, after.sqls, (e.op.table, e.op.sql), e.now)
          else Fewer(c.sqls, after.sqls))
  {
    hide GetIds, GetBean, PutIds, PutBean, DelIds, DelBean, ClearIds, ClearBeans, GcIds, GcSqls, Renewed, Shrink;
    match e.op
    case OpGetIds(t, q) => GetIdsRenews(c, cfg, t, q, e.now);
    case OpGetBean(t, id) => GetBeanRenews(c, cfg, t, id, e.now);
    case OpPutIds(t, q, v) => PutIdsRenews(c, cfg, t, q, v, e.now);
    case OpPutBean(t, id, v) => PutBeanRenews(c, cfg, t, id, v, e.now);
    case OpDelIds(t, q) => DelIdsFewer(c, t, q);
    case OpDelBean(t, id) => DelBeanFewer(c, t, id);
    case OpClearIds(t) =>
      ClearIdsIsShrink(c, t);
      ShrinkFewer(c, {}, TableNames(t, KeysOf(c.sqls, t)));
    case OpClearBeans(t) =>
      ClearBeansIsShrink(c, t);
      ShrinkFewer(c, TableNames(t, KeysOf(c.ids, t)), {});
    case OpGc =>
      GcIdsFewer(c, cfg, e.now, 0);
      GcSqlsFewer(GcIds(c, cfg, e.now, 0), cfg, e.now, 0);
  }

  ghost predicate Visited(c: Cache, history: seq<Event>) {
    && (forall n :: n in c.ids ==> BeanVisit(history, Name(n)) == Some(n.lastVisit))
    && (forall n :: n in c.sqls ==> IdsVisit(history, Name(n)) == Some(n.lastVisit))
  }

  /** After any history, at any times, each node carries the time of the latest Get or Put of its
      name. */
  lemma {:induction false} RunVisited(cfg: Config, history: seq<Event>)
    ensures Visited(Run(cfg, history), history)
  {
    if history != [] {
      var earlier, e := history[..|history| - 1], history[|history| - 1];
      RunVisited(cfg, earlier);
      ApplyRenews(Run(cfg, earlier), cfg, e);
      hide Apply;
      assert Run(cfg, history) == Apply(Run(cfg, earlier), cfg, e);
    }
  }

  // ----- what a call does to the lists -----

  /** The list without the node of that name, if there is one. */
  ghost predicate Removed(l: seq<Node>, p: (string, string), r: seq<Node>) {
    if p in Names(l) then exists i :: 0 <= i < |l| && Name(l[i]) == p && r == l[..i] + l[i + 1..] else r == l
  }

  /** The nodes of the other tables, in their order. */
  function NotOf(l: seq<Node>, t: string): seq<Node> {
    if l == [] then [] else (if l[0].table == t then [] else [l[0]]) + NotOf(l[1..], t)
  }

  lemma {:induction false} WithoutTable(l: seq<Node>, dead: set<(string, string)>, t: string)
    requires forall n :: n in l ==> (Name(n) in dead <==> n.table == t)
    ensures Without(l, dead) == NotOf(l, t)
  {
    if l != [] {
      assert l[0] in l && forall n :: n in l[1..] ==> n in l;
      WithoutTable(l[1..], dead, t);
    }
  }

  lemma TableIsDead(l: seq<Node>, t: string)
    ensures Without(l, TableNames(t, KeysOf(l, t))) == NotOf(l, t)
  {
    forall n | n in l ensures Name(n) in TableNames(t, KeysOf(l, t)) <==> n.table == t {
      if n.table == t { assert n.key in KeysOf(l, t); }
    }
    WithoutTable(l, TableNames(t, KeysOf(l, t)), t);
  }

  lemma {:induction false} WithoutIsRemoved(l: seq<Node>, p: (string, string))
    requires Distinct(l)
    ensures Removed(l, p, Without(l, {p}))
  {
    if p !in Names(l) {
      WithoutNothing(l, {p});
    } else if Name(l[0]) == p {
      WithoutFront(l);
      assert l[..0] + l[1..] == l[1..];
    } else {
      var rest := l[1..];
      NamesCons(l[0], rest);
      assert l == [l[0]] + rest;
      DistinctRest(l);
      WithoutIsRemoved(rest, p);
      hide Distinct, Names, Without;
      RemovedCons(l[0], rest, p, Without(rest, {p}));
    }
  }

  lemma DistinctRest(l: seq<Node>)
    requires Distinct(l) && l != []
    ensures Distinct(l[1..])
  {
    var rest := l[1..];
    forall i, j | 0 <= i < j < |rest| ensures Name(rest[i]) != Name(rest[j]) { assert Name(l[i + 1]) != Name(l[j + 1]); }
  }

  lemma RemovedCons(n: Node, rest: seq<Node>, p: (string, string), r: seq<Node>)
    requires p in Names(rest) && Removed(rest, p, r) && p in Names([n] + rest)
    ensures Removed([n] + rest, p, [n] + r)
  {
    hide Names;
    var i :| 0 <= i < |rest| && Name(rest[i]) == p && r == rest[..i] + rest[i + 1..];
    var l := [n] + rest;
    assert l[..i + 1] == [n] + rest[..i] && l[i + 2..] == rest[i + 1..];
    assert Name(l[i + 1]) == p && [n] + r == l[..i + 1] + l[(i + 1) + 1..];
  }

  lemma NamesCons(n: Node, l: seq<Node>)
    ensures Names([n] + l) == {Name(n)} + Names(l)
  {
    assert forall m :: m in [n] + l <==> m == n || m in l;
    forall p | p in {Name(n)} + Names(l) ensures p in Names([n] + l) {
      if p == Name(n) { assert n in [n] + l; } else { var m :| m in l && Name(m) == p; assert m in [n] + l; }
    }
  }

  /** The lists of the tables, not of `t`, stay as they are. */
  lemma ListsGo(c: Cache, t: string)
    ensures ClearIds(c, t).sqls == NotOf(c.sqls, t) && ClearIds(c, t).ids == c.ids
    ensures ClearBeans(c, t).ids == NotOf(c.ids, t) && ClearBeans(c, t).sqls == c.sqls
  {
    TableIsDead(c.sqls, t);
    TableIsDead(c.ids, t);
  }

  /** A deleted bean goes alone, or, if it was listed, with all id lists of its table. */
  lemma BeanGoes(c: Cache, t: string, id: string)
    requires Distinct(c.ids)
    ensures Removed(c.ids, (t, id), DelBean(c, t, id).ids)
    ensures DelBean(c, t, id).sqls == if (t, id) in Names(c.ids) then NotOf(c.sqls, t) else c.sqls
  {
    WithoutIsRemoved(c.ids, (t, id));
    TableIsDead(c.sqls, t);
    hide Removed, Without, Names;
  }

  lemma ListGoes(c: Cache, t: string, q: string)
    requires Distinct(c.sqls)
    ensures Removed(c.sqls, (t, q), DelIds(c, t, q).sqls) && DelIds(c, t, q).ids == c.ids
  {
    WithoutIsRemoved(c.sqls, (t, q));
  }

  /** Found, listed and not expired: the name moves to the end of its list with a new stamp. */
  ghost predicate MovedLast(l: seq<Node>, p: (string, string), now: int, r: seq<Node>) {
    exists i :: 0 <= i < |l| && Name(l[i]) == p && r == l[..i] + l[i + 1..] + [Node(p.0, p.1, now)]
  }

  lemma MoveIsMovedLast(l: seq<Node>, t: string, key: string, now: int)
    requires Distinct(l) && (t, key) in Names(l)
    ensures MovedLast(l, (t, key), now, MoveToBack(l, t, key, now))
  {
    WithoutIsRemoved(l, (t, key));
  }

  /** Reads of a bean after any history. It is returned exactly if it is listed and its latest visit
      is not too long ago; then it is the latest Put, moves to the end of the list, and nothing else
      changes. Otherwise it goes. */
  lemma GetBeanIff(cfg: Config, u: Universe, history: seq<Event>, t: string, id: string, now: int)
    requires Separated(u) && AllAllowed(history, u) && (t, id) in u.beans
    ensures
      var c, p := Run(cfg, history), (t, id);
      var (after, r) := GetBean(c, cfg, t, id, now);
      if p in Names(c.ids) && BeanVisit(history, p).Some? && now - BeanVisit(history, p).value <= cfg.expired then
        && r == LatestBean(history, t, id) && r.Some?
        && MovedLast(c.ids, p, now, after.ids) && after.sqls == c.sqls && after.store == c.store
      else
        && r == None && Removed(c.ids, p, after.ids)
        && after.sqls == if p in Names(c.ids) then NotOf(c.sqls, t) else c.sqls
  {
    var c, p := Run(cfg, history), (t, id);
    RunOwned(cfg, u, history);
    RunAgrees(cfg, u, history);
    RunVisited(cfg, history);
    StoredIff(c, cfg, u, p);
    BeanGoes(c, t, id);
    if p in Names(c.ids) {
      MoveIsMovedLast(c.ids, t, id, now);
      var n := Lookup(c.ids, t, id);
      assert BeanVisit(history, p) == Some(n.lastVisit);
    }
    assert BeanKey(p) == GenID(t, id);
    hide Run, Removed, MovedLast, MoveToBack, DelBean, Owned, Separated, NotOf;
  }

  lemma StoredIff(c: Cache, cfg: Config, u: Universe, p: (string, string))
    requires Separated(u) && Owned(c, cfg, u)
    ensures p in u.beans ==> (p in Names(c.ids) <==> BeanKey(p) in c.store)
    ensures p in u.sqls ==> (p in Names(c.sqls) <==> p.1 in c.store)
  {
    if p in Names(c.ids) { assert BeanKey(p) in StoreKeys(c); }
    if p in Names(c.sqls) { assert p.1 in StoreKeys(c); }
  }

  /** The same for id lists. */
  lemma GetIdsIff(cfg: Config, u: Universe, history: seq<Event>, t: string, q: string, now: int)
    requires Separated(u) && AllAllowed(history, u) && (t, q) in u.sqls
    ensures
      var c, p := Run(cfg, history), (t, q);
      var (after, r) := GetIds(c, cfg, t, q, now);
      && after.ids == c.ids
      && if p in Names(c.sqls) && IdsVisit(history, p).Some? && now - IdsVisit(history, p).value <= cfg.expired then
           r == LatestIds(history, t, q) && r.Some? && MovedLast(c.sqls, p, now, after.sqls) && after.store == c.store
         else r == None && Removed(c.sqls, p, after.sqls)
  {
    var c, p := Run(cfg, history), (t, q);
    RunOwned(cfg, u, history);
    RunAgrees(cfg, u, history);
    RunVisited(cfg, history);
    StoredIff(c, cfg, u, p);
    ListGoes(c, t, q);
    if p in Names(c.sqls) {
      MoveIsMovedLast(c.sqls, t, q, now);
      var n := Lookup(c.sqls, t, q);
      assert IdsVisit(history, p) == Some(n.lastVisit);
    }
    hide Run, Removed, MovedLast, MoveToBack, Owned, Separated;
  }

  /** The list after a Put, before any eviction: a listed name is restamped where it stands, another
      one joins the end. */
  ghost predicate Entered(l: seq<Node>, p: (string, string), now: int, r: seq<Node>) {
    if p in Names(l) then
      && |r| == |l|
      && forall i :: 0 <= i < |l| ==> r[i] == Node(l[i].table, l[i].key, if Name(l[i]) == p then now else l[i].lastVisit)
    else r == l + [Node(p.0, p.1, now)]
  }

  lemma EnterIsEntered(l: seq<Node>, t: string, key: string, now: int)
    ensures Entered(l, (t, key), now, Enter(l, t, key, now))
  {}

  /** A Put of a bean: beyond the capacity the front goes, and all id lists of its table. */
  lemma PutBeanNext(c: Cache, cfg: Config, t: string, id: string, v: Value, now: int) returns (l: seq<Node>)
    requires Distinct(c.ids)
    ensures Entered(c.ids, (t, id), now, l) && l != []
    ensures
      var after := PutBean(c, cfg, t, id, v, now);
      if |l| > cfg.maxElementSize then after.ids == l[1..] && after.sqls == NotOf(c.sqls, l[0].table)
      else after.ids == l && after.sqls == c.sqls && after.store == c.store[GenID(t, id) := v]
  {
    l := Enter(c.ids, t, id, now);
    EnterIsEntered(c.ids, t, id, now);
    EnterNames(c.ids, t, id, now);
    var stored := c.(ids := l, store := c.store[GenID(t, id) := v]);
    DelFrontBean(stored);
    FrontName(l);
    BeanGoes(stored, l[0].table, l[0].key);
    hide Enter, DelBean, Names, Removed, Entered, Without;
  }

  /** A Put of an id list: beyond the capacity the front list goes, and nothing else. */
  lemma PutIdsNext(c: Cache, cfg: Config, t: string, q: string, v: Value, now: int) returns (l: seq<Node>)
    requires Distinct(c.sqls)
    ensures Entered(c.sqls, (t, q), now, l) && l != []
    ensures
      var after := PutIds(c, cfg, t, q, v, now);
      && after.ids == c.ids
      && if |l| > cfg.maxElementSize then after.sqls == l[1..] else after.sqls == l && after.store == c.store[q := v]
  {
    l := Enter(c.sqls, t, q, now);
    EnterIsEntered(c.sqls, t, q, now);
    EnterNames(c.sqls, t, q, now);
    WithoutFront(l);
    hide Enter, Names, Entered, Without;
  }

  // ----- what goes first -----

  predicate NoLater(a: Option<int>, b: Option<int>) { a.Some? && b.Some? && a.value <= b.value }

  /** In a disciplined run, a Put into a full list removes a bean or list whose latest visit in the
      history is no later than that of any other. */
  lemma LeastRecentlyVisitedGoes(cfg: Config, u: Universe, history: seq<Event>)
    requires Separated(u) && AllAllowed(history, u) && Disciplined(cfg, history)
    ensures
      var c := Run(cfg, history);
      && (forall n :: n in c.ids ==> NoLater(BeanVisit(history, Name(c.ids[0])), BeanVisit(history, Name(n))))
      && (forall n :: n in c.sqls ==> NoLater(IdsVisit(history, Name(c.sqls[0])), IdsVisit(history, Name(n))))
  {
    var c := Run(cfg, history);
    RunVisited(cfg, history);
    RunOrdered(cfg, u, history);
    hide Run, Disciplined;
    if c.ids != [] { assert c.ids[0] in c.ids; }
    if c.sqls != [] { assert c.sqls[0] in c.sqls; }
  }
}
