/** What a session does to the cache around each auto-commit operation, as functions over
    the tables and the cache. The class in CachedSession.dfy is proved equal to these. */
module CacheProtocol {
  import opened Utils
  import opened Values
  import opened LruSpec

  type Table = map<PK, Row>

  const MAX_CACHED_IDS := 500

  /** The database and cache settings: queries are deterministic functions of one table.
      `limit1` puts LIMIT 1 on a statement in place of whatever limit it had. `victims` are the
      rows an executed DELETE takes; its ORDER BY and LIMIT are not part of the query that
      cacheDelete reads. */
  datatype Engine = Engine(cfg: Config, select: (string, Table) -> seq<PK>, limit1: string -> string,
                           victims: (string, Table) -> set<PK>)

  /** A statement's query: `key` stands for the id-selecting SQL with its arguments; for a Get,
      without its limit. It is cacheable when the conditions of canCache other than RawSQL hold,
      it has no HAVING or GROUP BY, and ConvertIDSQL works. */
  datatype Query = Query(table: string, key: string, raw: bool, cacheable: bool)

  /** Raw SQL never reaches the cached paths. */
  predicate CanCache(q: Query) { q.cacheable && !q.raw }

  datatype World = World(tables: map<string, Table>, cache: Cache)

  function Rows(w: World, table: string): Table {
    if table in w.tables then w.tables[table] else map[]
  }

  function Select(eng: Engine, w: World, q: Query): seq<PK> { eng.select(q.key, Rows(w, q.table)) }

  // ----- the plain database -----

  function PlainRow(rows: Table, pk: PK): Option<Row> { if pk in rows then Some(rows[pk]) else None }

  function Present(slots: seq<Option<Row>>): (r: seq<Row>)
    ensures |r| <= |slots|
  {
    if slots == [] then []
    else
      var before := Present(slots[..|slots| - 1]);
      match slots[|slots| - 1]
      case Some(row) => before + [row]
      case None => before
  }

  function PlainFind(eng: Engine, w: World, q: Query): seq<Row> {
    var ids := Select(eng, w, q);
    Present(seq(|ids|, i requires 0 <= i < |ids| => PlainRow(Rows(w, q.table), ids[i])))
  }

  function PlainGet(eng: Engine, w: World, q: Query): Option<Row> {
    var rows := PlainFind(eng, w, q);
    if rows == [] then None else Some(rows[0])
  }

  // ----- Get -----

  datatype GetReply = Got(row: Option<Row>) | GetCacheFailed | GetPanic

  /** The ids behind the query, from the cache or from the database (first row only). */
  function GetIdsForGet(eng: Engine, w: World, q: Query, now: int): (Cache, Option<seq<PK>>) {
    var (c, hit) := GetIds(w.cache, eng.cfg, q.table, q.key, now);
    match hit
    case Some(v) => (c, if v.Ids? then Some(v.ids) else None)
    case None =>
      var ids := Select(eng, w, q);
      if ids == [] then (c, None)
      else (PutIds(c, eng.cfg, q.table, q.key, Ids(ids[..1]), now), Some(ids[..1]))
  }

  /** Get puts LIMIT 1 on every statement that is not raw SQL. */
  function AsGet(eng: Engine, q: Query): Query { if q.raw then q else q.(key := eng.limit1(q.key)) }

  /** Setting the caller's struct from a bean of another struct type panics. */
  function CacheGet(eng: Engine, w: World, q: Query, kind: string, now: int): (World, GetReply) {
    if !CanCache(q) then (w, GetCacheFailed)
    else
      var (c, found) := GetIdsForGet(eng, w, q, now);
      if found.None? then (w.(cache := c), GetCacheFailed)
      else if found.value == [] then (w.(cache := c), Got(None))
      else
        var id := found.value[0];
        var (c', bean) := GetBean(c, eng.cfg, q.table, id, now);
        match bean
        case Some(v) => (w.(cache := c'), if v.Bean? && v.kind == kind then Got(Some(v.row)) else GetPanic)
        case None =>
          var row := PlainGet(eng, w, q);
          if row.None? then (w.(cache := c'), Got(None))
          else (w.(cache := PutBean(c', eng.cfg, q.table, id, Bean(kind, row.value), now)), Got(row))
  }

  function Get(eng: Engine, w: World, given: Query, kind: string, now: int): (World, GetReply) {
    var q := AsGet(eng, given);
    var (w', reply) := CacheGet(eng, w, q, kind, now);
    if reply.GetCacheFailed? then (w', Got(PlainGet(eng, w', q))) else (w', reply)
  }

  // ----- Find -----

  datatype FindReply = Listed(rows: seq<Row>) | FindCacheFailed

  function GetIdsForFind(eng: Engine, w: World, q: Query, now: int): (Cache, Option<seq<PK>>) {
    var (c, hit) := GetIds(w.cache, eng.cfg, q.table, q.key, now);
    match hit
    case Some(v) => (c, if v.Ids? then Some(v.ids) else None)
    case None =>
      var ids := Select(eng, w, q);
      if |ids| > MAX_CACHED_IDS then (c, None)
      else (PutIds(c, eng.cfg, q.table, q.key, Ids(ids), now), Some(ids))
  }

  datatype Probed = Probed(cache: Cache, slots: seq<Option<Row>>) | ProbeFailed(cache: Cache)

  /** Ask the cache for each id in turn; a bean of another struct type counts as a miss, and
      a bean that carries another id aborts the cached path. */
  function Probe(eng: Engine, c: Cache, table: string, ids: seq<PK>, kind: string, now: int): (p: Probed)
    ensures p.Probed? ==> |p.slots| == |ids|
  {
    if ids == [] then Probed(c, [])
    else
      var id := ids[|ids| - 1];
      match Probe(eng, c, table, ids[..|ids| - 1], kind, now)
      case ProbeFailed(c1) => ProbeFailed(c1)
      case Probed(c1, slots) =>
        var (c2, bean) := GetBean(c1, eng.cfg, table, id, now);
        if bean.None? || !bean.value.Bean? || bean.value.kind != kind then Probed(c2, slots + [None])
        else if bean.value.row.pk != id then ProbeFailed(c2)
        else Probed(c2, slots + [Some(bean.value.row)])
  }

  /** `ididxes`: for each missing id the position where it was last seen missing. */
  function MissIndex(ids: seq<PK>, slots: seq<Option<Row>>): (m: map<PK, nat>)
    requires |slots| == |ids|
    ensures forall id :: id in m ==> m[id] < |ids| && ids[m[id]] == id && slots[m[id]].None?
    ensures forall i :: 0 <= i < |ids| && slots[i].None? ==> ids[i] in m && i <= m[ids[i]]
  {
    if ids == [] then map[]
    else
      var n := |ids| - 1;
      var m := MissIndex(ids[..n], slots[..n]);
      if slots[n].None? then m[ids[n] := n] else m
  }

  /** Store each fetched row in its slot and in the cache. */
  function Refill(eng: Engine, c: Cache, table: string, slots: seq<Option<Row>>, at: map<PK, nat>,
                  batch: seq<Row>, kind: string, now: int): (r: (Cache, seq<Option<Row>>))
    ensures |r.1| == |slots|
  {
    if batch == [] then (c, slots)
    else
      var row := batch[|batch| - 1];
      var (c1, s1) := Refill(eng, c, table, slots, at, batch[..|batch| - 1], kind, now);
      var i := if row.pk in at then at[row.pk] else 0;
      (PutBean(c1, eng.cfg, table, row.pk, Bean(kind, row), now), if i < |s1| then s1[i := Some(row)] else s1)
  }

  /** The rows of an IN query over these ids, in whatever order the database lists them;
      with no id missing there is no query. */
  function Batch(rows: Table, wanted: set<PK>, order: set<PK> -> seq<PK>): seq<Row> {
    if wanted == {} then []
    else
      var found := order(wanted * rows.Keys);
      Present(seq(|found|, i requires 0 <= i < |found| => PlainRow(rows, found[i])))
  }

  function CacheFind(eng: Engine, w: World, q: Query, kind: string, order: set<PK> -> seq<PK>, now: int): (World, FindReply) {
    if !CanCache(q) then (w, FindCacheFailed)
    else
      var (c, found) := GetIdsForFind(eng, w, q, now);
      if found.None? then (w.(cache := c), FindCacheFailed)
      else
        match Probe(eng, c, q.table, found.value, kind, now)
        case ProbeFailed(c1) => (w.(cache := c1), FindCacheFailed)
        case Probed(c1, slots) =>
          var at := MissIndex(found.value, slots);
          var batch := Batch(Rows(w, q.table), at.Keys, order);
          var (c2, filled) := Refill(eng, c1, q.table, slots, at, batch, kind, now);
          (w.(cache := c2), Listed(Present(filled)))
  }

  function Find(eng: Engine, w: World, q: Query, kind: string, order: set<PK> -> seq<PK>, now: int): (World, FindReply) {
    var (w', reply) := CacheFind(eng, w, q, kind, order, now);
    if reply.FindCacheFailed? then (w', Listed(PlainFind(eng, w', q))) else (w', reply)
  }

  // ----- Insert, Update, Delete -----

  /** A failed INSERT leaves the table and the cache alone. */
  function Insert(w: World, table: string, added: Table): World {
    if added.Keys !! Rows(w, table).Keys
    then World(w.tables[table := Rows(w, table) + added], ClearIds(w.cache, table))
    else w
  }

  function Update(w: World, table: string, change: Table -> Table): World {
    World(w.tables[table := change(Rows(w, table))], ClearBeans(ClearIds(w.cache, table), table))
  }

  function DelBeans(c: Cache, table: string, ids: seq<PK>): Cache {
    if ids == [] then c
    else DelBean(DelBeans(c, table, ids[..|ids| - 1]), table, ids[|ids| - 1])
  }

  /** Invalidation before the DELETE runs: without a RefTable, or with `tx` set, it refuses,
      and the caller goes on regardless. */
  function CacheDelete(eng: Engine, w: World, q: Query, guarded: bool, now: int): Cache {
    if !guarded || !q.cacheable then w.cache
    else
      var (c, hit) := GetIds(w.cache, eng.cfg, q.table, q.key, now);
      var ids := if hit.Some? && hit.value.Ids? then hit.value.ids else Select(eng, w, q);
      ClearIds(DelBeans(c, q.table, ids), q.table)
  }

  function Delete(eng: Engine, w: World, q: Query, guarded: bool, now: int): World {
    World(w.tables[q.table := Rows(w, q.table) - eng.victims(q.key, Rows(w, q.table))],
          CacheDelete(eng, w, q, guarded, now))
  }

  // ----- runs -----

  datatype Command =
    | DoGet(q: Query, kind: string)
    | DoFind(q: Query, kind: string, order: set<PK> -> seq<PK>)
    | DoInsert(table: string, added: Table)
    | DoUpdate(table: string, change: Table -> Table)
    | DoDelete(q: Query, guarded: bool)

  datatype Step = Step(cmd: Command, now: int)

  datatype Reply = GetIs(get: GetReply) | FindIs(find: FindReply) | Done

  function Exec(eng: Engine, w: World, s: Step): (World, Reply) {
    match s.cmd
    case DoGet(q, kind) => var (w', r) := Get(eng, w, q, kind, s.now); (w', GetIs(r))
    case DoFind(q, kind, order) => var (w', r) := Find(eng, w, q, kind, order, s.now); (w', FindIs(r))
    case DoInsert(t, added) => (Insert(w, t, added), Done)
    case DoUpdate(t, change) => (Update(w, t, change), Done)
    case DoDelete(q, guarded) => (Delete(eng, w, q, guarded, s.now), Done)
  }

  /** The world and the replies after a run of a cached session. */
  function RunCached(eng: Engine, w: World, steps: seq<Step>): (World, seq<Reply>) {
    if steps == [] then (w, [])
    else
      var (w1, replies) := RunCached(eng, w, steps[..|steps| - 1]);
      var (w2, reply) := Exec(eng, w1, steps[|steps| - 1]);
      (w2, replies + [reply])
  }

  /** The same step on the database alone; a Get is the first row of the caller's statement. */
  function ExecPlain(eng: Engine, w: World, s: Step): (World, Reply) {
    match s.cmd
    case DoGet(q, _) => (w, GetIs(Got(PlainGet(eng, w, q))))
    case DoFind(q, _, _) => (w, FindIs(Listed(PlainFind(eng, w, q))))
    case DoInsert(t, added) =>
      (if added.Keys !! Rows(w, t).Keys then w.(tables := w.tables[t := Rows(w, t) + added]) else w, Done)
    case DoUpdate(t, change) => (w.(tables := w.tables[t := change(Rows(w, t))]), Done)
    case DoDelete(q, _) =>
      (w.(tables := w.tables[q.table := Rows(w, q.table) - eng.victims(q.key, Rows(w, q.table))]), Done)
  }

  function RunPlain(eng: Engine, w: World, steps: seq<Step>): (World, seq<Reply>) {
    if steps == [] then (w, [])
    else
      var (w1, replies) := RunPlain(eng, w, steps[..|steps| - 1]);
      var (w2, reply) := ExecPlain(eng, w1, steps[|steps| - 1]);
      (w2, replies + [reply])
  }
}
