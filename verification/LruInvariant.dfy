/** The five linked structures of the cacher stay in step in every reachable state. */
module LruInvariant {
  import opened Utils
  import opened Values
  import opened LruSpec

  /** The (table, id) and (table, sql) names a program may use with one cacher. */
  datatype Universe = Universe(beans: iset<(string, string)>, sqls: iset<(string, string)>)

  function BeanKey(p: (string, string)): string { GenID(p.0, p.1) }

  /** Distinct names have distinct store keys: `GenID` alone does not give this. */
  ghost predicate Separated(u: Universe) {
    && (forall p, q :: p in u.beans && q in u.beans && BeanKey(p) == BeanKey(q) ==> p == q)
    && (forall p, q :: p in u.sqls && q in u.sqls && p.1 == q.1 ==> p == q)
    && (forall p, q :: p in u.beans && q in u.sqls ==> BeanKey(p) != q.1)
  }

  /** Two different beans can share one store key, so `Separated` is a real hypothesis. */
  lemma GenIDCollides()
    ensures GenID("a", "b-c") == GenID("a-b", "c") && ("a", "b-c") != ("a-b", "c")
  {
    assert "a" + "-" + "b-c" == "a-b" + "-" + "c";
  }

  /** Two texts joined by one character: the join tells the first parts apart, whatever follows,
      exactly if neither of them with that character is a prefix of the other. */
  lemma JoinInjectiveIff(sep: char, t1: string, t2: string)
    ensures (forall a, b :: t1 + [sep] + a == t2 + [sep] + b ==> t1 == t2 && a == b) <==>
              t1 == t2 || !(t1 + [sep] <= t2 || t2 + [sep] <= t1)
  {
    if t1 != t2 && t1 + [sep] <= t2 { JoinCollides(sep, t1, t2); }
    if t1 != t2 && t2 + [sep] <= t1 { JoinCollides(sep, t2, t1); }
    if t1 == t2 || !(t1 + [sep] <= t2 || t2 + [sep] <= t1) {
      forall a, b | t1 + [sep] + a == t2 + [sep] + b ensures t1 == t2 && a == b { JoinApart(sep, t1, a, t2, b); }
    }
  }

  lemma JoinCollides(sep: char, t1: string, t2: string)
    requires t1 + [sep] <= t2
    ensures exists a :: t1 + [sep] + a == t2 + [sep] + "" && t2 + [sep] + "" == t1 + [sep] + a
  {
    var a := t2[|t1| + 1..] + [sep];
    assert t2 == t1 + [sep] + t2[|t1| + 1..];
    assert t1 + [sep] + a == t2 + [sep] + "";
  }

  lemma JoinApart(sep: char, t1: string, a: string, t2: string, b: string)
    requires t1 + [sep] + a == t2 + [sep] + b
    requires t1 == t2 || !(t1 + [sep] <= t2 || t2 + [sep] <= t1)
    ensures t1 == t2 && a == b
  {
    ShorterIsPrefix(sep, t1, a, t2, b);
    ShorterIsPrefix(sep, t2, b, t1, a);
    assert t1 == t2 ==> a == (t1 + [sep] + a)[|t1| + 1..] == b;
  }

  lemma ShorterIsPrefix(sep: char, t1: string, a: string, t2: string, b: string)
    requires t1 + [sep] + a == t2 + [sep] + b
    ensures |t1| <= |t2| ==> t1 == t2 || t1 + [sep] <= t2
  {
    var s := t1 + [sep] + a;
    assert s[..|t1|] == t1 && s[..|t1| + 1] == t1 + [sep];
    assert s == t2 + [sep] + b && s[..|t2|] == t2;
  }

  /** Two tables keep their beans apart under all ids exactly if neither name with a dash is a
      prefix of the other. */
  lemma GenIDInjectiveIff(t1: string, t2: string)
    ensures (forall id1, id2 :: GenID(t1, id1) == GenID(t2, id2) ==> t1 == t2 && id1 == id2) <==>
              t1 == t2 || !(t1 + "-" <= t2 || t2 + "-" <= t1)
  {
    JoinInjectiveIff('-', t1, t2);
    assert forall t, id :: GenID(t, id) == t + ['-'] + id;
  }

  /** Table names without a dash are of that kind. */
  lemma GenIDInjective(t1: string, id1: string, t2: string, id2: string)
    requires '-' !in t1 && '-' !in t2
    requires GenID(t1, id1) == GenID(t2, id2)
    ensures t1 == t2 && id1 == id2
  {
    GenIDInjectiveIff(t1, t2);
    assert (t1 + "-")[|t1|] == '-' && (t2 + "-")[|t2|] == '-';
  }

  // ----- the key of a query -----

  /** The arguments as fmt prints a slice of strings. */
  function Printed(args: seq<string>): string {
    if args == [] then "" else if |args| == 1 then args[0] else args[0] + " " + Printed(args[1..])
  }

  function GenSqlKey(sql: string, args: seq<string>): string { sql + "-" + "[" + Printed(args) + "]" }

  /** Two argument lists of one query can share a store key. */
  lemma GenSqlKeyCollides(sql: string)
    ensures GenSqlKey(sql, ["a b", "c"]) == GenSqlKey(sql, ["a", "b c"])
  {
    assert ["a b", "c"][1..] == ["c"] && ["a", "b c"][1..] == ["b c"];
    assert Printed(["a b", "c"]) == "a b c" == Printed(["a", "b c"]);
  }

  /** A query of two arguments tells two first ones apart, whatever the second ones are, exactly
      if neither of them with a blank is a prefix of the other. */
  lemma GenSqlKeyInjectiveIff(sql: string, x: string, y: string)
    ensures (forall a, b :: GenSqlKey(sql, [x, a]) == GenSqlKey(sql, [y, b]) ==> x == y && a == b) <==>
              x == y || !(x + " " <= y || y + " " <= x)
  {
    JoinInjectiveIff(' ', x, y);
    hide GenSqlKey, Printed;
    if forall a, b :: GenSqlKey(sql, [x, a]) == GenSqlKey(sql, [y, b]) ==> x == y && a == b {
      forall a, b | x + [' '] + a == y + [' '] + b ensures x == y && a == b { TwoArgs(sql, x, a, y, b); }
    }
    if forall a, b :: x + [' '] + a == y + [' '] + b ==> x == y && a == b {
      forall a, b | GenSqlKey(sql, [x, a]) == GenSqlKey(sql, [y, b]) ensures x == y && a == b { TwoArgs(sql, x, a, y, b); }
    }
  }

  lemma TwoArgs(sql: string, x: string, a: string, y: string, b: string)
    ensures GenSqlKey(sql, [x, a]) == GenSqlKey(sql, [y, b]) <==> x + [' '] + a == y + [' '] + b
  {
    SameArgs(sql, [x, a], [y, b]);
    TwoPrinted(x, a);
    TwoPrinted(y, b);
  }

  lemma TwoPrinted(x: string, a: string)
    ensures Printed([x, a]) == x + [' '] + a
  {
    assert [x, a][1..] == [a];
  }

  lemma SameArgs(sql: string, xs: seq<string>, ys: seq<string>)
    ensures GenSqlKey(sql, xs) == GenSqlKey(sql, ys) <==> Printed(xs) == Printed(ys)
  {
    var head := sql + "-" + "[";
    var s, t := head + Printed(xs) + "]", head + Printed(ys) + "]";
    assert s[|head|..|s| - 1] == Printed(xs) && t[|head|..|t| - 1] == Printed(ys);
  }

  /** As many arguments without blanks are always told apart. */
  lemma {:induction false} GenSqlKeyInjective(sql: string, xs: seq<string>, ys: seq<string>)
    requires |xs| == |ys| && (forall x :: x in xs ==> ' ' !in x) && (forall y :: y in ys ==> ' ' !in y)
    requires GenSqlKey(sql, xs) == GenSqlKey(sql, ys)
    ensures xs == ys
    decreases |xs|
  {
    SameArgs(sql, xs, ys);
    if |xs| == 1 {
      assert xs == [xs[0]] && ys == [ys[0]];
    } else if |xs| > 1 {
      var a, b := Printed(xs[1..]), Printed(ys[1..]);
      assert xs[0] in xs && ys[0] in ys;
      assert xs[0] + [' '] + a == Printed(xs) == Printed(ys) == ys[0] + [' '] + b;
      assert (xs[0] + [' '])[|xs[0]|] == ' ' && (ys[0] + [' '])[|ys[0]|] == ' ';
      JoinApart(' ', xs[0], a, ys[0], b);
      SameArgs(sql, xs[1..], ys[1..]);
      GenSqlKeyInjective(sql, xs[1..], ys[1..]);
      assert xs == [xs[0]] + xs[1..] && ys == [ys[0]] + ys[1..];
    }
  }

  ghost function StoreKeys(c: Cache): set<string> {
    (set p | p in Names(c.ids) :: BeanKey(p)) + (set p | p in Names(c.sqls) :: p.1)
  }

  ghost predicate Within(l: seq<Node>, cfg: Config) {
    |l| <= if cfg.maxElementSize < 0 then 0 else cfg.maxElementSize
  }

  /** The invariant of a cacher that owns an initially empty store. */
  ghost predicate Owned(c: Cache, cfg: Config, u: Universe) {
    && Distinct(c.ids) && Distinct(c.sqls)
    && (forall p :: p in Names(c.ids) ==> p in u.beans)
    && (forall p :: p in Names(c.sqls) ==> p in u.sqls)
    && c.store.Keys == StoreKeys(c)
    && Within(c.ids, cfg) && Within(c.sqls, cfg)
  }

  // ----- facts about Without -----

  lemma {:induction false} WithoutMember(l: seq<Node>, dead: set<(string, string)>)
    ensures forall n :: n in Without(l, dead) <==> n in l && Name(n) !in dead
    ensures Names(Without(l, dead)) == Names(l) - dead
    ensures |Without(l, dead)| <= |l|
  {
    if l != [] {
      WithoutMember(l[1..], dead);
      assert forall n :: n in l <==> n == l[0] || n in l[1..];
    }
  }

  lemma {:induction false} WithoutNothing(l: seq<Node>, dead: set<(string, string)>)
    requires Names(l) !! dead
    ensures Without(l, dead) == l
  {
    if l != [] {
      assert l[0] in l && Name(l[0]) in Names(l);
      assert forall n :: n in l[1..] ==> n in l;
      assert Names(l[1..]) <= Names(l);
      WithoutNothing(l[1..], dead);
    }
  }

  lemma {:induction false} WithoutTwice(l: seq<Node>, a: set<(string, string)>, b: set<(string, string)>)
    ensures Without(Without(l, a), b) == Without(l, a + b)
  {
    if l != [] { WithoutTwice(l[1..], a, b); }
  }

  lemma {:induction false} WithoutDistinct(l: seq<Node>, dead: set<(string, string)>)
    requires Distinct(l)
    ensures Distinct(Without(l, dead))
  {
    if l != [] {
      WithoutDistinct(l[1..], dead);
      WithoutMember(l[1..], dead);
      var r := Without(l[1..], dead);
      forall j | 0 <= j < |r| ensures Name(r[j]) != Name(l[0]) {
        assert r[j] in l[1..];
        var k :| 0 <= k < |l[1..]| && l[1..][k] == r[j];
        assert Name(l[0]) != Name(l[k + 1]);
      }
    }
  }

  // ----- every removal is one shrink -----

  function Shrink(c: Cache, beans: set<(string, string)>, sqls: set<(string, string)>): Cache {
    Cache(Without(c.ids, beans), Without(c.sqls, sqls),
          c.store - (set p | p in beans :: BeanKey(p)) - (set p | p in sqls :: p.1))
  }

  /** The lists lose exactly these names, and the store exactly their keys. */
  lemma ShrinkOwned(c: Cache, cfg: Config, u: Universe, beans: set<(string, string)>, sqls: set<(string, string)>)
    requires Separated(u) && Owned(c, cfg, u)
    requires forall p :: p in beans ==> p in u.beans
    requires forall p :: p in sqls ==> p in u.sqls
    ensures Owned(Shrink(c, beans, sqls), cfg, u)
  {
    WithoutMember(c.ids, beans);
    WithoutMember(c.sqls, sqls);
    WithoutDistinct(c.ids, beans);
    WithoutDistinct(c.sqls, sqls);
    KeysLeft(u, Names(c.ids), Names(c.sqls), beans, sqls);
    hide Separated, Distinct, Without, Names;
  }

  /** Where names have different keys, their keys go with them and no others do. */
  lemma KeysLeft(u: Universe, ids: set<(string, string)>, lists: set<(string, string)>,
                 beans: set<(string, string)>, sqls: set<(string, string)>)
    requires Separated(u)
    requires forall p :: p in ids || p in beans ==> p in u.beans
    requires forall p :: p in lists || p in sqls ==> p in u.sqls
    ensures (set p | p in ids - beans :: BeanKey(p)) + (set p | p in lists - sqls :: p.1) ==
            (set p | p in ids :: BeanKey(p)) + (set p | p in lists :: p.1)
            - (set p | p in beans :: BeanKey(p)) - (set p | p in sqls :: p.1)
  {
    hide BeanKey;
  }

  lemma DelIdsIsShrink(c: Cache, table: string, sql: string)
    ensures DelIds(c, table, sql) == Shrink(c, {}, {(table, sql)})
  {
    WithoutNothing(c.ids, {});
    assert (set p | p in {(table, sql)} :: p.1) == {sql};
  }

  lemma ClearIdsIsShrink(c: Cache, table: string)
    ensures ClearIds(c, table) == Shrink(c, {}, TableNames(table, KeysOf(c.sqls, table)))
    ensures TableNames(table, KeysOf(c.sqls, table)) <= Names(c.sqls)
  {
    WithoutNothing(c.ids, {});
    var dead := KeysOf(c.sqls, table);
    var names := TableNames(table, dead);
    forall k | k in dead ensures k in (set p | p in names :: p.1) {
      assert (table, k) in names;
    }
    assert (set p | p in names :: p.1) == dead;
  }

  lemma ClearBeansIsShrink(c: Cache, table: string)
    ensures ClearBeans(c, table) == Shrink(c, TableNames(table, KeysOf(c.ids, table)), {})
    ensures TableNames(table, KeysOf(c.ids, table)) <= Names(c.ids)
  {
    WithoutNothing(c.sqls, {});
    var dead := KeysOf(c.ids, table);
    var names := TableNames(table, dead);
    forall k | k in dead ensures GenID(table, k) in (set p | p in names :: BeanKey(p)) {
      assert (table, k) in names && BeanKey((table, k)) == GenID(table, k);
    }
    assert (set p | p in names :: BeanKey(p)) == BeanKeys(table, dead);
  }

  /** The cached id lists that removing a bean takes with it. */
  function Collateral(c: Cache, table: string, id: string): set<(string, string)> {
    if (table, id) in Names(c.ids) then TableNames(table, KeysOf(c.sqls, table)) else {}
  }

  lemma DelBeanIsShrink(c: Cache, table: string, id: string)
    ensures DelBean(c, table, id) == Shrink(c, {(table, id)}, Collateral(c, table, id))
    ensures Collateral(c, table, id) <= Names(c.sqls)
  {
    var beans := {(table, id)};
    assert BeanKey((table, id)) == GenID(table, id);
    assert (set p | p in beans :: BeanKey(p)) == {GenID(table, id)};
    if (table, id) in Names(c.ids) {
      var c1 := c.(ids := Without(c.ids, beans));
      ClearIdsIsShrink(c1, table);
      WithoutNothing(c1.ids, {});
    } else {
      WithoutNothing(c.ids, beans);
      WithoutNothing(c.sqls, {});
    }
  }

  lemma DelBeanOwned(c: Cache, cfg: Config, u: Universe, table: string, id: string)
    requires Separated(u) && Owned(c, cfg, u) && (table, id) in u.beans
    ensures Owned(DelBean(c, table, id), cfg, u)
  {
    DelBeanIsShrink(c, table, id);
    ShrinkOwned(c, cfg, u, {(table, id)}, Collateral(c, table, id));
  }

  lemma DelIdsOwned(c: Cache, cfg: Config, u: Universe, table: string, sql: string)
    requires Separated(u) && Owned(c, cfg, u) && (table, sql) in u.sqls
    ensures Owned(DelIds(c, table, sql), cfg, u)
  {
    DelIdsIsShrink(c, table, sql);
    ShrinkOwned(c, cfg, u, {}, {(table, sql)});
  }

  // ----- entries that are added or refreshed -----

  lemma AppendNames(l: seq<Node>, n: Node)
    ensures Names(l + [n]) == Names(l) + {Name(n)}
  {
    assert forall m :: m in l + [n] <==> m in l || m == n;
    forall p | p in Names(l) + {Name(n)} ensures p in Names(l + [n]) {
      if p == Name(n) { assert n in l + [n]; }
      else { var m :| m in l && Name(m) == p; assert m in l + [n]; }
    }
  }

  lemma MoveToBackNames(l: seq<Node>, table: string, key: string, now: int)
    requires Distinct(l) && (table, key) in Names(l)
    ensures Distinct(MoveToBack(l, table, key, now))
    ensures Names(MoveToBack(l, table, key, now)) == Names(l)
    ensures |MoveToBack(l, table, key, now)| == |l|
  {
    WithoutMember(l, {(table, key)});
    WithoutDistinct(l, {(table, key)});
    WithoutOne(l, table, key);
    var r := Without(l, {(table, key)});
    forall i | 0 <= i < |r| ensures Name(r[i]) != (table, key) {
      assert r[i] in r;
    }
    AppendNames(r, Node(table, key, now));
  }

  lemma {:induction false} WithoutOne(l: seq<Node>, table: string, key: string)
    requires Distinct(l)
    ensures |Without(l, {(table, key)})| == if (table, key) in Names(l) then |l| - 1 else |l|
  {
    if l == [] {
    } else if Name(l[0]) == (table, key) {
      forall n | n in l[1..] ensures Name(n) != (table, key) {
        var k :| 0 <= k < |l[1..]| && l[1..][k] == n;
        assert Name(l[0]) != Name(l[k + 1]);
      }
      WithoutNothing(l[1..], {(table, key)});
      assert l[0] in l && Name(l[0]) in Names(l);
    } else {
      WithoutOne(l[1..], table, key);
      assert forall n :: n in l <==> n == l[0] || n in l[1..];
      assert (table, key) in Names(l) <==> (table, key) in Names(l[1..]);
    }
  }

  lemma StampNames(l: seq<Node>, table: string, key: string, now: int)
    ensures Names(Stamp(l, table, key, now)) == Names(l)
    ensures Distinct(l) ==> Distinct(Stamp(l, table, key, now))
  {
    var r := Stamp(l, table, key, now);
    assert forall i :: 0 <= i < |l| ==> Name(r[i]) == Name(l[i]);
    forall p | p in Names(l) ensures p in Names(r) {
      var i :| 0 <= i < |l| && Name(l[i]) == p;
      assert r[i] in r;
    }
    forall p | p in Names(r) ensures p in Names(l) {
      var i :| 0 <= i < |r| && Name(r[i]) == p;
      assert l[i] in l;
    }
  }

  lemma EnterNames(l: seq<Node>, table: string, key: string, now: int)
    requires Distinct(l)
    ensures Distinct(Enter(l, table, key, now))
    ensures Names(Enter(l, table, key, now)) == Names(l) + {(table, key)}
    ensures |Enter(l, table, key, now)| == if (table, key) in Names(l) then |l| else |l| + 1
  {
    if (table, key) in Names(l) {
      StampNames(l, table, key, now);
    } else {
      assert forall i :: 0 <= i < |l| ==> l[i] in l && Name(l[i]) in Names(l);
      AppendNames(l, Node(table, key, now));
    }
  }

  lemma FrontName(l: seq<Node>)
    requires l != []
    ensures (l[0].table, l[0].key) in Names(l)
  {
    assert l[0] in l && Name(l[0]) in Names(l);
  }

  // ----- every operation keeps the invariant -----

  lemma GetBeanOwned(c: Cache, cfg: Config, u: Universe, table: string, id: string, now: int)
    requires Separated(u) && Owned(c, cfg, u) && (table, id) in u.beans
    ensures Owned(GetBean(c, cfg, table, id, now).0, cfg, u)
  {
    DelBeanOwned(c, cfg, u, table, id);
    if GenID(table, id) in c.store {
      assert BeanKey((table, id)) in StoreKeys(c);
      assert (table, id) in Names(c.ids);
      MoveToBackNames(c.ids, table, id, now);
    }
  }

  lemma GetIdsOwned(c: Cache, cfg: Config, u: Universe, table: string, sql: string, now: int)
    requires Separated(u) && Owned(c, cfg, u) && (table, sql) in u.sqls
    ensures Owned(GetIds(c, cfg, table, sql, now).0, cfg, u)
  {
    DelIdsOwned(c, cfg, u, table, sql);
    if sql in c.store {
      assert (table, sql).1 in StoreKeys(c);
      assert (table, sql) in Names(c.sqls);
      MoveToBackNames(c.sqls, table, sql, now);
    }
  }

  function BeanStored(c: Cache, table: string, id: string, v: Value, now: int): Cache {
    c.(ids := Enter(c.ids, table, id, now), store := c.store[GenID(table, id) := v])
  }

  /** Before the eviction, under a capacity that has room for the new bean. */
  lemma BeanStoredOwned(c: Cache, cfg: Config, u: Universe, table: string, id: string, v: Value, now: int, size: int)
    requires Separated(u) && Owned(c, cfg, u) && (table, id) in u.beans
    requires size >= |Enter(c.ids, table, id, now)| && size >= |c.sqls|
    ensures Owned(BeanStored(c, table, id, v, now), cfg.(maxElementSize := size), u)
  {
    EnterNames(c.ids, table, id, now);
    hide Enter, Separated, Distinct;
    assert StoreKeys(BeanStored(c, table, id, v, now)) == StoreKeys(c) + {BeanKey((table, id))};
  }

  /** The bean in front goes, and at most the lists with it. */
  lemma EvictedSizes(c: Cache)
    requires c.ids != [] && Distinct(c.ids)
    ensures
      var after := DelBean(c, c.ids[0].table, c.ids[0].key);
      |after.ids| == |c.ids| - 1 && |after.sqls| <= |c.sqls|
  {
    var t, id := c.ids[0].table, c.ids[0].key;
    FrontName(c.ids);
    DelBeanIsShrink(c, t, id);
    WithoutOne(c.ids, t, id);
    WithoutMember(c.sqls, Collateral(c, t, id));
    hide Distinct, Without, Names, DelBean;
  }

  lemma PutBeanOwned(c: Cache, cfg: Config, u: Universe, table: string, id: string, v: Value, now: int)
    requires Separated(u) && Owned(c, cfg, u) && (table, id) in u.beans
    ensures Owned(PutBean(c, cfg, table, id, v, now), cfg, u)
  {
    hide Enter, Separated, DelBean, StoreKeys, GenID, BeanKey;
    var stored := BeanStored(c, table, id, v, now);
    var l := stored.ids;
    EnterNames(c.ids, table, id, now);
    BeanStoredOwned(c, cfg, u, table, id, v, now, |l| + |c.sqls|);
    if |l| > cfg.maxElementSize {
      var roomy := cfg.(maxElementSize := |l| + |c.sqls|);
      FrontName(l);
      DelBeanOwned(stored, roomy, u, l[0].table, l[0].key);
      EvictedSizes(stored);
      hide Distinct, Names;
    }
  }

  lemma PutIdsOwned(c: Cache, cfg: Config, u: Universe, table: string, sql: string, v: Value, now: int)
    requires Separated(u) && Owned(c, cfg, u) && (table, sql) in u.sqls
    ensures Owned(PutIds(c, cfg, table, sql, v, now), cfg, u)
  {
    EnterNames(c.sqls, table, sql, now);
    var l := Enter(c.sqls, table, sql, now);
    var stored := c.(sqls := l, store := c.store[sql := v]);
    assert StoreKeys(stored) == StoreKeys(c) + {(table, sql).1};
    if |l| > cfg.maxElementSize {
      FrontName(l);
      var roomy := cfg.(maxElementSize := |l| + |c.ids|);
      DelIdsOwned(stored, roomy, u, l[0].table, l[0].key);
      WithoutOne(l, l[0].table, l[0].key);
    }
  }

  lemma ClearIdsOwned(c: Cache, cfg: Config, u: Universe, table: string)
    requires Separated(u) && Owned(c, cfg, u)
    ensures Owned(ClearIds(c, table), cfg, u)
  {
    ClearIdsIsShrink(c, table);
    ShrinkOwned(c, cfg, u, {}, TableNames(table, KeysOf(c.sqls, table)));
  }

  lemma ClearBeansOwned(c: Cache, cfg: Config, u: Universe, table: string)
    requires Separated(u) && Owned(c, cfg, u)
    ensures Owned(ClearBeans(c, table), cfg, u)
  {
    ClearBeansIsShrink(c, table);
    ShrinkOwned(c, cfg, u, TableNames(table, KeysOf(c.ids, table)), {});
  }

  lemma {:induction false} GcIdsOwned(c: Cache, cfg: Config, u: Universe, now: int, removed: nat)
    requires Separated(u) && Owned(c, cfg, u)
    ensures Owned(GcIds(c, cfg, now, removed), cfg, u)
    decreases GC_MAX_REMOVED + 1 - removed
  {
    hide Separated, DelBean;
    if c.ids != [] && removed <= GC_MAX_REMOVED && IsExpired(c.ids[0], now, cfg) {
      FrontName(c.ids);
      assert (c.ids[0].table, c.ids[0].key) in u.beans;
      hide Owned;
      DelBeanOwned(c, cfg, u, c.ids[0].table, c.ids[0].key);
      GcIdsOwned(DelBean(c, c.ids[0].table, c.ids[0].key), cfg, u, now, removed + 1);
    }
  }

  lemma {:induction false} GcSqlsOwned(c: Cache, cfg: Config, u: Universe, now: int, removed: nat)
    requires Separated(u) && Owned(c, cfg, u)
    ensures Owned(GcSqls(c, cfg, now, removed), cfg, u)
    decreases GC_MAX_REMOVED + 1 - removed
  {
    hide Separated, DelIds;
    if c.sqls != [] && removed <= GC_MAX_REMOVED && IsExpired(c.sqls[0], now, cfg) {
      FrontName(c.sqls);
      assert (c.sqls[0].table, c.sqls[0].key) in u.sqls;
      hide Owned;
      DelIdsOwned(c, cfg, u, c.sqls[0].table, c.sqls[0].key);
      GcSqlsOwned(DelIds(c, c.sqls[0].table, c.sqls[0].key), cfg, u, now, removed + 1);
    }
  }

  ghost predicate Allowed(op: Op, u: Universe) {
    match op
    case OpGetIds(t, q) => (t, q) in u.sqls
    case OpGetBean(t, id) => (t, id) in u.beans
    case OpPutIds(t, q, _) => (t, q) in u.sqls
    case OpPutBean(t, id, _) => (t, id) in u.beans
    case OpDelIds(t, q) => (t, q) in u.sqls
    case OpDelBean(t, id) => (t, id) in u.beans
    case OpClearIds(_) => true
    case OpClearBeans(_) => true
    case OpGc => true
  }

  lemma ApplyOwned(c: Cache, cfg: Config, u: Universe, e: Event)
    requires Separated(u) && Owned(c, cfg, u) && Allowed(e.op, u)
    ensures Owned(Apply(c, cfg, e), cfg, u)
  {
    match e.op
    case OpGetIds(t, q) => GetIdsOwned(c, cfg, u, t, q, e.now);
    case OpGetBean(t, id) => GetBeanOwned(c, cfg, u, t, id, e.now);
    case OpPutIds(t, q, v) => PutIdsOwned(c, cfg, u, t, q, v, e.now);
    case OpPutBean(t, id, v) => PutBeanOwned(c, cfg, u, t, id, v, e.now);
    case OpDelIds(t, q) => DelIdsOwned(c, cfg, u, t, q);
    case OpDelBean(t, id) => DelBeanOwned(c, cfg, u, t, id);
    case OpClearIds(t) => ClearIdsOwned(c, cfg, u, t);
    case OpClearBeans(t) => ClearBeansOwned(c, cfg, u, t);
    case OpGc =>
      GcIdsOwned(c, cfg, u, e.now, 0);
      GcSqlsOwned(GcIds(c, cfg, e.now, 0), cfg, u, e.now, 0);
  }

  ghost predicate AllAllowed(history: seq<Event>, u: Universe) {
    forall i :: 0 <= i < |history| ==> Allowed(history[i].op, u)
  }

  /** Whatever operations a fresh cacher goes through, at whatever times, lists, indexes and
      store name the same entries and both lists respect the capacity. */
  lemma {:induction false} RunOwned(cfg: Config, u: Universe, history: seq<Event>)
    requires Separated(u) && AllAllowed(history, u)
    ensures Owned(Run(cfg, history), cfg, u)
  {
    if history != [] {
      RunOwned(cfg, u, history[..|history| - 1]);
      ApplyOwned(Run(cfg, history[..|history| - 1]), cfg, u, history[|history| - 1]);
    }
  }
}
