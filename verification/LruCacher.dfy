/** The cacher as the objects it is made of: list elements, two nested indexes, one store.
    Each method is one critical section at one clock reading `now`. */
module LruCacher {
  import opened Utils
  import opened Values
  import opened LruSpec
  import opened LruInvariant
  import opened LruOrder

  /** The store behind a cacher. */
  class MemoryStore {
    var store: map<string, Value>

    constructor ()
      ensures store == map[]
    { store := map[]; }

    method Put(key: string, value: Value)
      modifies this
      ensures store == old(store)[key := value]
    { store := store[key := value]; }

    method Get(key: string) returns (r: Option<Value>)
      ensures r == if key in store then Some(store[key]) else None
    { r := if key in store then Some(store[key]) else None; }

    method Del(key: string)
      modifies this
      ensures store == old(store) - {key}
    { store := store - {key}; }
  }

  /** A list element: two indexes point at it, and only its time stamp changes. */
  class Element {
    const table: string
    const key: string
    var lastVisit: int

    constructor (table: string, key: string, now: int)
      ensures this.table == table && this.key == key && lastVisit == now
    { this.table := table; this.key := key; lastVisit := now; }
  }

  type Index = map<string, map<string, Element>>

  function Find(index: Index, table: string, key: string): Option<Element> {
    if table in index && key in index[table] then Some(index[table][key]) else None
  }

  function NodeOf(e: Element): Node
    reads e
  { Node(e.table, e.key, e.lastVisit) }

  /** The node list describes the element list. */
  ghost predicate Mirrors(list: seq<Element>, l: seq<Node>)
    reads list
  {
    |l| == |list| && forall i :: 0 <= i < |l| ==> l[i] == NodeOf(list[i])
  }

  /** No two elements carry the same name. */
  ghost predicate Unique(list: seq<Element>) {
    forall i, j :: 0 <= i < j < |list| ==> (list[i].table, list[i].key) != (list[j].table, list[j].key)
  }

  /** The list and its index hold the same elements, each once and under its own name. */
  ghost predicate Linked(list: seq<Element>, index: Index) {
    && Unique(list)
    && (forall e :: e in list ==> Find(index, e.table, e.key) == Some(e))
    && (forall t, k :: Find(index, t, k).Some? ==>
          var e := Find(index, t, k).value; e in list && e.table == t && e.key == k)
  }

  function Position(list: seq<Element>, e: Element): (i: nat)
    requires e in list
    ensures i < |list| && list[i] == e
  {
    if list[0] == e then 0 else 1 + Position(list[1..], e)
  }

  function Remove(list: seq<Element>, e: Element): seq<Element>
    requires e in list
  {
    var i := Position(list, e);
    list[..i] + list[i + 1..]
  }

  function Unindex(index: Index, table: string, key: string): Index
    requires table in index
  { index[table := index[table] - {key}] }

  lemma MirrorDistinct(list: seq<Element>, l: seq<Node>)
    requires Unique(list) && Mirrors(list, l)
    ensures Distinct(l)
  {
    forall i, j | 0 <= i < j < |l| ensures Name(l[i]) != Name(l[j]) {
      assert (list[i].table, list[i].key) != (list[j].table, list[j].key);
    }
  }

  lemma LinkedNames(list: seq<Element>, index: Index, l: seq<Node>)
    requires Linked(list, index) && Mirrors(list, l)
    ensures forall t, k :: (t, k) in Names(l) <==> Find(index, t, k).Some?
  {
    forall t, k | Find(index, t, k).Some? ensures (t, k) in Names(l) {
      var i := Position(list, Find(index, t, k).value);
      assert l[i] in l && Name(l[i]) == (t, k);
    }
    forall t, k | (t, k) in Names(l) ensures Find(index, t, k).Some? {
      var i :| 0 <= i < |l| && Name(l[i]) == (t, k);
      assert list[i] in list;
    }
  }

  /** Without one name of a distinct list is the list with that position cut out. */
  lemma {:induction false} WithoutAt(l: seq<Node>, i: nat)
    requires Distinct(l) && i < |l|
    ensures Without(l, {Name(l[i])}) == l[..i] + l[i + 1..]
  {
    if i == 0 {
      WithoutFront(l);
    } else {
      assert Name(l[0]) != Name(l[i]);
      WithoutAt(l[1..], i - 1);
      assert l[..i] == [l[0]] + l[1..][..i - 1];
    }
  }

  lemma RemoveMembers(list: seq<Element>, e: Element)
    requires Unique(list) && e in list
    ensures Unique(Remove(list, e))
    ensures forall x :: x in Remove(list, e) <==> x in list && x != e
  {
    var i := Position(list, e);
    var r := Remove(list, e);
    forall x | x in list && x != e ensures x in r {
      var j := Position(list, x);
      if j < i { assert r[j] == x; } else { assert r[j - 1] == x; }
    }
    forall j | 0 <= j < |r| ensures r[j] in list && r[j] != e {
      var k := if j < i then j else j + 1;
      assert r[j] == list[k];
    }
  }

  /** Taking an element off the list and out of the index removes its name from the nodes. */
  lemma Unlink(list: seq<Element>, index: Index, l: seq<Node>, e: Element)
    requires Linked(list, index) && Mirrors(list, l) && e in list
    ensures e.table in index && Linked(Remove(list, e), Unindex(index, e.table, e.key))
    ensures Mirrors(Remove(list, e), Without(l, {(e.table, e.key)}))
    ensures forall x :: x in Remove(list, e) <==> x in list && x != e
  {
    assert Find(index, e.table, e.key) == Some(e);
    MirrorDistinct(list, l);
    WithoutAt(l, Position(list, e));
    RemoveMembers(list, e);
    var index' := Unindex(index, e.table, e.key);
    assert forall t, k :: Find(index', t, k) == if (t, k) == (e.table, e.key) then None else Find(index, t, k);
  }

  lemma SameFinds(list: seq<Element>, a: Index, b: Index)
    requires Linked(list, a)
    requires forall t, k :: Find(a, t, k) == Find(b, t, k)
    ensures Linked(list, b)
  {}

  /** The index with the table's inner map cut down to the keys still to be visited. */
  ghost function Narrowed(index: Index, table: string, left: set<string>): Index
    requires table in index && left <= index[table].Keys
  { index[table := map k | k in left :: index[table][k]] }

  /** The keys indexed under a table are the keys of its nodes. */
  lemma IndexedKeys(list: seq<Element>, index: Index, l: seq<Node>, table: string)
    requires Linked(list, index) && Mirrors(list, l)
    ensures KeysOf(l, table) == if table in index then index[table].Keys else {}
  {
    forall k | k in KeysOf(l, table) ensures Find(index, table, k).Some? {
      var i :| 0 <= i < |l| && l[i].table == table && l[i].key == k;
      assert list[i] in list;
    }
    forall k | Find(index, table, k).Some? ensures k in KeysOf(l, table) {
      var i := Position(list, Find(index, table, k).value);
      assert l[i] in l;
    }
    if table in index {
      assert forall k :: k in index[table] <==> Find(index, table, k).Some?;
    } else {
      assert forall k :: Find(index, table, k) == None;
    }
  }

  lemma NothingGone(l: seq<Node>, table: string)
    ensures Without(l, TableNames(table, {})) == l && BeanKeys(table, {}) == {}
  {
    WithoutNothing(l, TableNames(table, {}));
  }

  lemma NarrowedFull(list: seq<Element>, index: Index, table: string)
    requires Linked(list, index) && table in index
    ensures Linked(list, Narrowed(index, table, index[table].Keys))
  {
    SameFinds(list, index, Narrowed(index, table, index[table].Keys));
  }

  lemma NarrowMore(list: seq<Element>, index: Index, table: string, left: set<string>, key: string)
    requires table in index && left <= index[table].Keys && key in left
    requires Linked(list, Unindex(Narrowed(index, table, left), table, key))
    ensures Linked(list, Narrowed(index, table, left - {key}))
  {
    SameFinds(list, Unindex(Narrowed(index, table, left), table, key), Narrowed(index, table, left - {key}));
  }

  /** One round of a clearing loop: the element of `key` goes from list and index. */
  lemma ClearOne(list: seq<Element>, index: Index, l: seq<Node>, table: string, left: set<string>, gone: set<string>, key: string)
    requires table in index && left <= index[table].Keys && key in left
    requires Linked(list, Narrowed(index, table, left))
    requires Mirrors(list, Without(l, TableNames(table, gone)))
    ensures index[table][key] in list
    ensures Linked(Remove(list, index[table][key]), Narrowed(index, table, left - {key}))
    ensures Mirrors(Remove(list, index[table][key]), Without(l, TableNames(table, gone + {key})))
    ensures forall x :: x in Remove(list, index[table][key]) ==> x in list
    ensures BeanKeys(table, gone + {key}) == BeanKeys(table, gone) + {GenID(table, key)}
  {
    var narrowed, el := Narrowed(index, table, left), index[table][key];
    assert Find(narrowed, table, key) == Some(el);
    Unlink(list, narrowed, Without(l, TableNames(table, gone)), el);
    NarrowMore(Remove(list, el), index, table, left, key);
    WithoutTwice(l, TableNames(table, gone), {(table, key)});
    assert TableNames(table, gone + {key}) == TableNames(table, gone) + {(table, key)};
  }

  /** After the loop the inner map is replaced by an empty one. */
  lemma ClearDone(list: seq<Element>, index: Index, table: string)
    requires Linked(list, if table in index then Narrowed(index, table, {}) else index)
    ensures Linked(list, index[table := map[]])
  {
    SameFinds(list, if table in index then Narrowed(index, table, {}) else index, index[table := map[]]);
  }

  function Enroll(index: Index, e: Element): Index {
    var inner: map<string, Element> := if e.table in index then index[e.table] else map[];
    index[e.table := inner[e.key := e]]
  }

  /** An element under a new name joins the list and the index. */
  lemma Link(list: seq<Element>, index: Index, e: Element)
    requires Linked(list, index) && Find(index, e.table, e.key) == None
    ensures Linked(list + [e], Enroll(index, e)) && e !in list
  {
    var index' := Enroll(index, e);
    assert forall t, k :: Find(index', t, k) == if (t, k) == (e.table, e.key) then Some(e) else Find(index, t, k);
    assert forall x :: x in list + [e] <==> x in list || x == e;
  }

  lemma MovedLinked(list: seq<Element>, index: Index, e: Element)
    requires Linked(list, index) && e in list
    ensures Linked(Remove(list, e) + [e], index)
    ensures e !in Remove(list, e) && forall x :: x in Remove(list, e) ==> x in list
  {
    RemoveMembers(list, e);
    var r := Remove(list, e) + [e];
    assert forall x :: x in r <==> x in list;
    forall i | 0 <= i < |r| - 1 ensures (r[i].table, r[i].key) != (e.table, e.key) {
      assert r[i] in list && r[i] != e;
    }
  }

  lemma UnlistedName(list: seq<Element>, index: Index, l: seq<Node>, table: string, key: string)
    requires Linked(list, index) && Mirrors(list, l)
    ensures (table, key) in Names(l) <==> Find(index, table, key).Some?
    ensures Find(index, table, key).Some? ==>
              var e := Find(index, table, key).value;
              e in list && e.table == table && e.key == key && Lookup(l, table, key) == NodeOf(e)
  {
    LinkedNames(list, index, l);
    if Find(index, table, key).Some? {
      var e := Find(index, table, key).value;
      var i := Position(list, e);
      var n := Lookup(l, table, key);
      var j :| 0 <= j < |l| && l[j] == n;
      MirrorDistinct(list, l);
      assert Name(l[i]) == Name(l[j]);
    }
  }

  lemma FrontMirror(list: seq<Element>, l: seq<Node>)
    requires Mirrors(list, l)
    ensures |list| == |l| && (list != [] ==> l[0] == NodeOf(list[0]))
  {}

  lemma RemoveMirrors(list: seq<Element>, l: seq<Node>, e: Element)
    requires Unique(list) && Mirrors(list, l) && e in list
    ensures Mirrors(Remove(list, e), Without(l, {(e.table, e.key)}))
  {
    MirrorDistinct(list, l);
    WithoutAt(l, Position(list, e));
  }

  class LRUCacher {
    ghost var contents: Cache
    var idList: seq<Element>
    var sqlList: seq<Element>
    var idIndex: Index
    var sqlIndex: Index
    const store: MemoryStore
    const cfg: Config

    ghost predicate Valid()
      reads this, store, idList, sqlList
    {
      && Linked(idList, idIndex) && Mirrors(idList, contents.ids)
      && Linked(sqlList, sqlIndex) && Mirrors(sqlList, contents.sqls)
      && (forall e :: e in idList ==> e !in sqlList)
      && store.store == contents.store
    }

    constructor (cfg: Config)
      ensures Valid() && fresh(store) && idList == sqlList == []
      ensures contents == EMPTY && this.cfg == cfg
    {
      this.cfg := cfg;
      store := new MemoryStore();
      idList, sqlList, idIndex, sqlIndex := [], [], map[], map[];
      contents := EMPTY;
    }

    /** `delete` from the index and `Remove` from the list, as one step. */
    method UnlinkIds(el: Element)
      requires Valid() && el in sqlList
      modifies this
      ensures Valid() && unchanged(`idList, `idIndex)
      ensures forall e :: e in sqlList ==> e in old(sqlList)
      ensures contents == old(contents).(sqls := Without(old(contents).sqls, {(el.table, el.key)}))
    {
      Unlink(sqlList, sqlIndex, contents.sqls, el);
      sqlIndex := Unindex(sqlIndex, el.table, el.key);
      sqlList := Remove(sqlList, el);
      contents := contents.(sqls := Without(contents.sqls, {(el.table, el.key)}));
    }

    method DelIds(table: string, sql: string)
      requires Valid()
      modifies this, store
      ensures Valid() && unchanged(`idList, `idIndex)
      ensures forall e :: e in sqlList ==> e in old(sqlList)
      ensures contents == LruSpec.DelIds(old(contents), table, sql)
    {
      hide Linked, Mirrors, Without;
      UnlistedName(sqlList, sqlIndex, contents.sqls, table, sql);
      if table in sqlIndex && sql in sqlIndex[table] {
        UnlinkIds(sqlIndex[table][sql]);
      } else {
        WithoutNothing(contents.sqls, {(table, sql)});
      }
      store.Del(sql);
      contents := contents.(store := contents.store - {sql});
    }

    method ClearIds(table: string)
      requires Valid()
      modifies this, store
      ensures Valid() && unchanged(`idList, `idIndex) && old(sqlIndex.Keys) <= sqlIndex.Keys
      ensures forall e :: e in sqlList ==> e in old(sqlList)
      ensures contents == LruSpec.ClearIds(old(contents), table)
    {
      hide Linked, Mirrors, Without, TableNames, BeanKeys, KeysOf, Remove, Narrowed, Find;
      ghost var gone: set<string> := {};
      NothingGone(contents.sqls, table);
      IndexedKeys(sqlList, sqlIndex, contents.sqls, table);
      if table in sqlIndex {
        var tis := sqlIndex[table];
        var left := tis.Keys;
        NarrowedFull(sqlList, sqlIndex, table);
        while left != {}
          invariant left <= tis.Keys && gone == tis.Keys - left
          invariant unchanged(`idList, `idIndex, `sqlIndex, `contents)
          invariant forall e :: e in sqlList ==> e in old(sqlList)
          invariant Mirrors(idList, contents.ids)
          invariant Linked(sqlList, Narrowed(sqlIndex, table, left))
          invariant Mirrors(sqlList, Without(contents.sqls, TableNames(table, gone)))
          invariant store.store == contents.store - gone
          decreases left
        {
          var sql :| sql in left;
          var el := tis[sql];
          ClearOne(sqlList, sqlIndex, contents.sqls, table, left, gone, sql);
          sqlList := Remove(sqlList, el);
          store.Del(sql);
          left := left - {sql};
          gone := gone + {sql};
        }
      }
      ClearDone(sqlList, sqlIndex, table);
      assert gone == KeysOf(contents.sqls, table);
      contents := LruSpec.ClearIds(contents, table);
      sqlIndex := sqlIndex[table := map[]];
    }

    method ClearBeans(table: string)
      requires Valid()
      modifies this, store
      ensures Valid() && unchanged(`sqlList, `sqlIndex) && old(idIndex.Keys) <= idIndex.Keys
      ensures forall e :: e in idList ==> e in old(idList)
      ensures contents == LruSpec.ClearBeans(old(contents), table)
    {
      hide Linked, Mirrors, Without, TableNames, BeanKeys, KeysOf, Remove, Narrowed, Find;
      ghost var gone: set<string> := {};
      NothingGone(contents.ids, table);
      IndexedKeys(idList, idIndex, contents.ids, table);
      if table in idIndex {
        var tis := idIndex[table];
        var left := tis.Keys;
        NarrowedFull(idList, idIndex, table);
        while left != {}
          invariant left <= tis.Keys && gone == tis.Keys - left
          invariant unchanged(`sqlList, `sqlIndex, `idIndex, `contents)
          invariant forall e :: e in idList ==> e in old(idList)
          invariant Mirrors(sqlList, contents.sqls)
          invariant Linked(idList, Narrowed(idIndex, table, left))
          invariant Mirrors(idList, Without(contents.ids, TableNames(table, gone)))
          invariant store.store == contents.store - BeanKeys(table, gone)
          decreases left
        {
          var id :| id in left;
          var el := tis[id];
          ClearOne(idList, idIndex, contents.ids, table, left, gone, id);
          idList := Remove(idList, el);
          store.Del(GenID(table, id));
          left := left - {id};
          gone := gone + {id};
        }
      }
      ClearDone(idList, idIndex, table);
      assert gone == KeysOf(contents.ids, table);
      contents := LruSpec.ClearBeans(contents, table);
      idIndex := idIndex[table := map[]];
    }

    /** `delete` from the index and `Remove` from the list, as one step. */
    method UnlinkBean(el: Element)
      requires Valid() && el in idList
      modifies this
      ensures Valid() && unchanged(`sqlList, `sqlIndex) && old(idIndex.Keys) <= idIndex.Keys
      ensures forall e :: e in idList ==> e in old(idList)
      ensures contents == old(contents).(ids := Without(old(contents).ids, {(el.table, el.key)}))
    {
      Unlink(idList, idIndex, contents.ids, el);
      idIndex := Unindex(idIndex, el.table, el.key);
      idList := Remove(idList, el);
      contents := contents.(ids := Without(contents.ids, {(el.table, el.key)}));
    }

    method DelBean(table: string, id: string)
      requires Valid()
      modifies this, store
      ensures Valid() && old(idIndex.Keys) <= idIndex.Keys
      ensures forall e :: e in idList ==> e in old(idList)
      ensures forall e :: e in sqlList ==> e in old(sqlList)
      ensures contents == LruSpec.DelBean(old(contents), table, id)
    {
      hide Linked, Mirrors, Without;
      UnlistedName(idList, idIndex, contents.ids, table, id);
      if table in idIndex && id in idIndex[table] {
        UnlinkBean(idIndex[table][id]);
        ClearIds(table);
      }
      store.Del(GenID(table, id));
      contents := contents.(store := contents.store - {GenID(table, id)});
    }

    /** `MoveToBack` and a new time stamp for a bean's element. */
    method TouchBean(el: Element, now: int)
      requires Valid() && el in idList
      modifies this, el
      ensures Valid() && unchanged(`sqlList, `sqlIndex, `idIndex)
      ensures forall e :: e in idList ==> e in old(idList)
      ensures contents == old(contents).(ids := MoveToBack(old(contents).ids, el.table, el.key, now))
    {
      MovedLinked(idList, idIndex, el);
      RemoveMirrors(idList, contents.ids, el);
      idList := Remove(idList, el) + [el];
      el.lastVisit := now;
      contents := contents.(ids := MoveToBack(contents.ids, el.table, el.key, now));
    }

    method TouchIds(el: Element, now: int)
      requires Valid() && el in sqlList
      modifies this, el
      ensures Valid() && unchanged(`idList, `idIndex, `sqlIndex)
      ensures forall e :: e in sqlList ==> e in old(sqlList)
      ensures contents == old(contents).(sqls := MoveToBack(old(contents).sqls, el.table, el.key, now))
    {
      MovedLinked(sqlList, sqlIndex, el);
      RemoveMirrors(sqlList, contents.sqls, el);
      sqlList := Remove(sqlList, el) + [el];
      el.lastVisit := now;
      contents := contents.(sqls := MoveToBack(contents.sqls, el.table, el.key, now));
    }

    /** `PushBack` of a new element, and its entry in the index. */
    method PushBean(table: string, id: string, now: int)
      requires Valid() && table in idIndex && Find(idIndex, table, id) == None
      modifies this
      ensures Valid() && unchanged(`sqlList, `sqlIndex) && idIndex.Keys == old(idIndex.Keys)
      ensures forall e :: e in idList ==> e in old(idList) || fresh(e)
      ensures contents == old(contents).(ids := old(contents).ids + [Node(table, id, now)])
    {
      var el := new Element(table, id, now);
      Link(idList, idIndex, el);
      idList := idList + [el];
      idIndex := Enroll(idIndex, el);
      contents := contents.(ids := contents.ids + [Node(table, id, now)]);
    }

    method PushIds(table: string, sql: string, now: int)
      requires Valid() && table in sqlIndex && Find(sqlIndex, table, sql) == None
      modifies this
      ensures Valid() && unchanged(`idList, `idIndex) && sqlIndex.Keys == old(sqlIndex.Keys)
      ensures forall e :: e in sqlList ==> e in old(sqlList) || fresh(e)
      ensures contents == old(contents).(sqls := old(contents).sqls + [Node(table, sql, now)])
    {
      var el := new Element(table, sql, now);
      Link(sqlList, sqlIndex, el);
      sqlList := sqlList + [el];
      sqlIndex := Enroll(sqlIndex, el);
      contents := contents.(sqls := contents.sqls + [Node(table, sql, now)]);
    }

    method GetIds(table: string, sql: string, now: int) returns (r: Option<Value>)
      requires Valid()
      modifies this, store, set e | e in sqlList
      ensures Valid() && unchanged(`idList, `idIndex)
      ensures forall e :: e in sqlList ==> e in old(sqlList) || fresh(e)
      ensures (contents, r) == LruSpec.GetIds(old(contents), cfg, table, sql, now)
    {
      if table !in sqlIndex {
        SameFinds(sqlList, sqlIndex, sqlIndex[table := map[]]);
        sqlIndex := sqlIndex[table := map[]];
      }
      UnlistedName(sqlList, sqlIndex, contents.sqls, table, sql);
      var v := store.Get(sql);
      if v.Some? {
        if sql !in sqlIndex[table] {
          PushIds(table, sql, now);
        } else {
          var el := sqlIndex[table][sql];
          if now - el.lastVisit > cfg.expired {
            DelIds(table, sql);
            return None;
          }
          TouchIds(el, now);
        }
        return v;
      }
      DelIds(table, sql);
      return None;
    }

    method GetBean(table: string, id: string, now: int) returns (r: Option<Value>)
      requires Valid()
      modifies this, store, set e | e in idList
      ensures Valid() && table in idIndex && old(idIndex.Keys) <= idIndex.Keys
      ensures forall e :: e in idList ==> e in old(idList) || fresh(e)
      ensures forall e :: e in sqlList ==> e in old(sqlList)
      ensures (contents, r) == LruSpec.GetBean(old(contents), cfg, table, id, now)
    {
      if table !in idIndex {
        SameFinds(idList, idIndex, idIndex[table := map[]]);
        idIndex := idIndex[table := map[]];
      }
      UnlistedName(idList, idIndex, contents.ids, table, id);
      var v := store.Get(GenID(table, id));
      if v.Some? {
        if id in idIndex[table] {
          var el := idIndex[table][id];
          if now - el.lastVisit > cfg.expired {
            DelBean(table, id);
            return None;
          }
          TouchBean(el, now);
        } else {
          PushBean(table, id, now);
        }
        return v;
      }
      DelBean(table, id);
      return None;
    }

    /** A new time stamp where the element stands: a Put of a listed key does not move it. */
    method StampBean(el: Element, now: int)
      requires Valid() && el in idList
      modifies el, this`contents
      ensures Valid()
      ensures contents == old(contents).(ids := Stamp(old(contents).ids, el.table, el.key, now))
    {
      MirrorDistinct(idList, contents.ids);
      ghost var i := Position(idList, el);
      assert forall j :: 0 <= j < |idList| && j != i ==> Name(contents.ids[j]) != Name(contents.ids[i]);
      assert forall j :: 0 <= j < |idList| && j != i ==> idList[j] != el;
      el.lastVisit := now;
      contents := contents.(ids := Stamp(contents.ids, el.table, el.key, now));
    }

    method StampIds(el: Element, now: int)
      requires Valid() && el in sqlList
      modifies el, this`contents
      ensures Valid()
      ensures contents == old(contents).(sqls := Stamp(old(contents).sqls, el.table, el.key, now))
    {
      MirrorDistinct(sqlList, contents.sqls);
      ghost var i := Position(sqlList, el);
      assert forall j :: 0 <= j < |sqlList| && j != i ==> Name(contents.sqls[j]) != Name(contents.sqls[i]);
      assert forall j :: 0 <= j < |sqlList| && j != i ==> sqlList[j] != el;
      el.lastVisit := now;
      contents := contents.(sqls := Stamp(contents.sqls, el.table, el.key, now));
    }

    method PutIds(table: string, sql: string, ids: Value, now: int)
      requires Valid()
      modifies this, store, set e | e in sqlList
      ensures Valid() && unchanged(`idList, `idIndex)
      ensures forall e :: e in sqlList ==> e in old(sqlList) || fresh(e)
      ensures contents == LruSpec.PutIds(old(contents), cfg, table, sql, ids, now)
    {
      hide Linked, Mirrors, Stamp;
      if table !in sqlIndex {
        SameFinds(sqlList, sqlIndex, sqlIndex[table := map[]]);
        sqlIndex := sqlIndex[table := map[]];
      }
      UnlistedName(sqlList, sqlIndex, contents.sqls, table, sql);
      if sql !in sqlIndex[table] {
        PushIds(table, sql, now);
      } else {
        StampIds(sqlIndex[table][sql], now);
      }
      store.Put(sql, ids);
      contents := contents.(store := contents.store[sql := ids]);
      FrontMirror(sqlList, contents.sqls);
      if |sqlList| > cfg.maxElementSize {
        var e := sqlList[0];
        DelIds(e.table, e.key);
      }
    }

    /** Go writes into the table's inner map: GetBean on the table must have created it. */
    method PutBean(table: string, id: string, obj: Value, now: int)
      requires Valid() && table in idIndex
      modifies this, store, set e | e in idList
      ensures Valid() && old(idIndex.Keys) <= idIndex.Keys
      ensures forall e :: e in idList ==> e in old(idList) || fresh(e)
      ensures forall e :: e in sqlList ==> e in old(sqlList)
      ensures contents == LruSpec.PutBean(old(contents), cfg, table, id, obj, now)
    {
      hide Linked, Mirrors, Stamp;
      UnlistedName(idList, idIndex, contents.ids, table, id);
      if id !in idIndex[table] {
        PushBean(table, id, now);
      } else {
        StampBean(idIndex[table][id], now);
      }
      store.Put(GenID(table, id), obj);
      contents := contents.(store := contents.store[GenID(table, id) := obj]);
      FrontMirror(idList, contents.ids);
      if |idList| > cfg.maxElementSize {
        var e := idList[0];
        DelBean(e.table, e.key);
      }
    }

    method GC(now: int)
      requires Valid()
      modifies this, store
      ensures Valid() && old(idIndex.Keys) <= idIndex.Keys
      ensures forall e :: e in idList ==> e in old(idList)
      ensures forall e :: e in sqlList ==> e in old(sqlList)
      ensures contents == LruSpec.Gc(old(contents), cfg, now)
    {
      hide Linked, Mirrors;
      var removedNum := 0;
      // each round removes the front element, so the next element is the new front
      while idList != [] && removedNum <= GC_MAX_REMOVED && now - idList[0].lastVisit > cfg.expired
        invariant Valid() && old(idIndex.Keys) <= idIndex.Keys
        invariant 0 <= removedNum <= GC_MAX_REMOVED + 1
        invariant forall e :: e in idList ==> e in old(idList)
        invariant forall e :: e in sqlList ==> e in old(sqlList)
        invariant GcIds(contents, cfg, now, removedNum) == GcIds(old(contents), cfg, now, 0)
        decreases GC_MAX_REMOVED + 1 - removedNum
      {
        FrontMirror(idList, contents.ids);
        var node := idList[0];
        removedNum := removedNum + 1;
        DelBean(node.table, node.key);
      }
      FrontMirror(idList, contents.ids);
      ghost var mid := contents;
      assert mid == GcIds(old(contents), cfg, now, 0);

      removedNum := 0;
      while sqlList != [] && removedNum <= GC_MAX_REMOVED && now - sqlList[0].lastVisit > cfg.expired
        invariant Valid() && old(idIndex.Keys) <= idIndex.Keys
        invariant 0 <= removedNum <= GC_MAX_REMOVED + 1
        invariant forall e :: e in idList ==> e in old(idList)
        invariant forall e :: e in sqlList ==> e in old(sqlList)
        invariant GcSqls(contents, cfg, now, removedNum) == GcSqls(mid, cfg, now, 0)
        decreases GC_MAX_REMOVED + 1 - removedNum
      {
        FrontMirror(sqlList, contents.sqls);
        var node := sqlList[0];
        removedNum := removedNum + 1;
        DelIds(node.table, node.key);
      }
      FrontMirror(sqlList, contents.sqls);
    }
  }
}
