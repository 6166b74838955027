/** The LRU cache as a value: two recency lists and one flat store, the indexes being
    derived from the lists. The class in LruCacher.dfy is proved equal to these functions. */
module LruSpec {
  import opened Utils
  import opened Values

  const GC_MAX_REMOVED := 20

  /** An entry of a recency list; the front of a list is the end that eviction takes. */
  datatype Node = Node(table: string, key: string, lastVisit: int)

  datatype Config = Config(maxElementSize: int, expired: int)

  datatype Cache = Cache(ids: seq<Node>, sqls: seq<Node>, store: map<string, Value>)

  const EMPTY := Cache([], [], map[])

  function GenID(table: string, id: string): string { table + "-" + id }

  predicate IsExpired(n: Node, now: int, cfg: Config) { now - n.lastVisit > cfg.expired }

  // ----- recency lists -----

  function Name(n: Node): (string, string) { (n.table, n.key) }

  function Names(l: seq<Node>): set<(string, string)> { set n | n in l :: Name(n) }

  function KeysOf(l: seq<Node>, table: string): set<string> { set n | n in l && n.table == table :: n.key }

  ghost predicate Distinct(l: seq<Node>) {
    forall i, j :: 0 <= i < j < |l| ==> Name(l[i]) != Name(l[j])
  }

  function Without(l: seq<Node>, dead: set<(string, string)>): seq<Node> {
    if l == [] then []
    else if Name(l[0]) in dead then Without(l[1..], dead)
    else [l[0]] + Without(l[1..], dead)
  }

  /** The node of an indexed name; used only where the name is in the list. */
  function Lookup(l: seq<Node>, table: string, key: string): (n: Node)
    requires (table, key) in Names(l)
    ensures n in l && Name(n) == (table, key)
  {
    if Name(l[0]) == (table, key) then l[0]
    else
      assert exists n :: n in l && Name(n) == (table, key);
      Lookup(l[1..], table, key)
  }

  function Stamp(l: seq<Node>, table: string, key: string, now: int): (r: seq<Node>)
    ensures |r| == |l|
  {
    seq(|l|, i requires 0 <= i < |l| => if Name(l[i]) == (table, key) then l[i].(lastVisit := now) else l[i])
  }

  function MoveToBack(l: seq<Node>, table: string, key: string, now: int): seq<Node> {
    Without(l, {(table, key)}) + [Node(table, key, now)]
  }

  // ----- cache operations -----

  function DelIds(c: Cache, table: string, sql: string): Cache {
    c.(sqls := Without(c.sqls, {(table, sql)}), store := c.store - {sql})
  }

  function TableNames(table: string, keys: set<string>): set<(string, string)> {
    set k | k in keys :: (table, k)
  }

  function ClearIds(c: Cache, table: string): Cache {
    var dead := KeysOf(c.sqls, table);
    c.(sqls := Without(c.sqls, TableNames(table, dead)), store := c.store - dead)
  }

  function BeanKeys(table: string, ids: set<string>): set<string> {
    set id | id in ids :: GenID(table, id)
  }

  function ClearBeans(c: Cache, table: string): Cache {
    var dead := KeysOf(c.ids, table);
    c.(ids := Without(c.ids, TableNames(table, dead)), store := c.store - BeanKeys(table, dead))
  }

  function DelBean(c: Cache, table: string, id: string): Cache {
    var unlinked :=
      if (table, id) in Names(c.ids)
      then ClearIds(c.(ids := Without(c.ids, {(table, id)})), table)
      else c;
    unlinked.(store := unlinked.store - {GenID(table, id)})
  }

  function GetIds(c: Cache, cfg: Config, table: string, sql: string, now: int): (Cache, Option<Value>) {
    if sql !in c.store then (DelIds(c, table, sql), None)
    else if (table, sql) !in Names(c.sqls) then
      (c.(sqls := c.sqls + [Node(table, sql, now)]), Some(c.store[sql]))
    else if IsExpired(Lookup(c.sqls, table, sql), now, cfg) then (DelIds(c, table, sql), None)
    else (c.(sqls := MoveToBack(c.sqls, table, sql, now)), Some(c.store[sql]))
  }

  function GetBean(c: Cache, cfg: Config, table: string, id: string, now: int): (Cache, Option<Value>) {
    var tid := GenID(table, id);
    if tid !in c.store then (DelBean(c, table, id), None)
    else if (table, id) !in Names(c.ids) then
      (c.(ids := c.ids + [Node(table, id, now)]), Some(c.store[tid]))
    else if IsExpired(Lookup(c.ids, table, id), now, cfg) then (DelBean(c, table, id), None)
    else (c.(ids := MoveToBack(c.ids, table, id, now)), Some(c.store[tid]))
  }

  function Enter(l: seq<Node>, table: string, key: string, now: int): (r: seq<Node>)
    ensures r != []
  {
    if (table, key) in Names(l) then Stamp(l, table, key, now) else l + [Node(table, key, now)]
  }

  function PutIds(c: Cache, cfg: Config, table: string, sql: string, v: Value, now: int): Cache {
    var stored := c.(sqls := Enter(c.sqls, table, sql, now), store := c.store[sql := v]);
    if |stored.sqls| > cfg.maxElementSize
    then DelIds(stored, stored.sqls[0].table, stored.sqls[0].key)
    else stored
  }

  function PutBean(c: Cache, cfg: Config, table: string, id: string, v: Value, now: int): Cache {
    var stored := c.(ids := Enter(c.ids, table, id, now), store := c.store[GenID(table, id) := v]);
    if |stored.ids| > cfg.maxElementSize
    then DelBean(stored, stored.ids[0].table, stored.ids[0].key)
    else stored
  }

  // ----- garbage collection: both loops stop at the first fresh node or after 21 removals -----

  function GcIds(c: Cache, cfg: Config, now: int, removed: nat): Cache
    decreases GC_MAX_REMOVED + 1 - removed
  {
    if c.ids != [] && removed <= GC_MAX_REMOVED && IsExpired(c.ids[0], now, cfg)
    then GcIds(DelBean(c, c.ids[0].table, c.ids[0].key), cfg, now, removed + 1)
    else c
  }

  function GcSqls(c: Cache, cfg: Config, now: int, removed: nat): Cache
    decreases GC_MAX_REMOVED + 1 - removed
  {
    if c.sqls != [] && removed <= GC_MAX_REMOVED && IsExpired(c.sqls[0], now, cfg)
    then GcSqls(DelIds(c, c.sqls[0].table, c.sqls[0].key), cfg, now, removed + 1)
    else c
  }

  function Gc(c: Cache, cfg: Config, now: int): Cache {
    GcSqls(GcIds(c, cfg, now, 0), cfg, now, 0)
  }

  // ----- runs -----

  datatype Op =
    | OpGetIds(table: string, sql: string)
    | OpGetBean(table: string, id: string)
    | OpPutIds(table: string, sql: string, v: Value)
    | OpPutBean(table: string, id: string, v: Value)
    | OpDelIds(table: string, sql: string)
    | OpDelBean(table: string, id: string)
    | OpClearIds(table: string)
    | OpClearBeans(table: string)
    | OpGc

  datatype Event = Event(op: Op, now: int)

  function Apply(c: Cache, cfg: Config, e: Event): Cache {
    match e.op
    case OpGetIds(t, q) => GetIds(c, cfg, t, q, e.now).0
    case OpGetBean(t, id) => GetBean(c, cfg, t, id, e.now).0
    case OpPutIds(t, q, v) => PutIds(c, cfg, t, q, v, e.now)
    case OpPutBean(t, id, v) => PutBean(c, cfg, t, id, v, e.now)
    case OpDelIds(t, q) => DelIds(c, t, q)
    case OpDelBean(t, id) => DelBean(c, t, id)
    case OpClearIds(t) => ClearIds(c, t)
    case OpClearBeans(t) => ClearBeans(c, t)
    case OpGc => Gc(c, cfg, e.now)
  }

  /** The state of a fresh cacher after the whole history. */
  function Run(cfg: Config, history: seq<Event>): Cache {
    if history == [] then EMPTY
    else Apply(Run(cfg, history[..|history| - 1]), cfg, history[|history| - 1])
  }
}
