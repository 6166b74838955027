/** Migrate and RollbackLast over a table of recorded ids, when any step may fail. */
module Migrations {
  import opened Utils
  import opened Values

  /** A migration function's outcome; a failing one may have changed the schema already. */
  datatype Effect<S> = Effect(schema: S, ok: bool)

  datatype Migration<!S> = Migration(id: string, up: S -> Effect<S>, down: Option<S -> Effect<S>>)

  /** The database: the migration table, the schema, and a count of the statements sent. */
  datatype Db<S> = Db(hasTable: bool, recorded: set<string>, schema: S, sent: nat)

  datatype Outcome = Ok | Failed | MissingID | NoMigrationDefined | NoRunnedMigration | RollbackImpossible

  /** Which statements fail, by number. */
  type Faults = nat -> bool

  function Sent<S>(db: Db<S>): Db<S> { db.(sent := db.sent + 1) }

  /** Whether a query on the migration table answers. */
  predicate Answers<S>(db: Db<S>, faults: Faults) { db.hasTable && !faults(db.sent) }

  function CreateTable<S>(db: Db<S>, faults: Faults): (Db<S>, Outcome) {
    if faults(db.sent) then (Sent(db), Failed)
    else if db.hasTable then (Sent(db), Ok)
    else if faults(db.sent + 1) then (Sent(Sent(db)), Failed)
    else (Sent(Sent(db)).(hasTable := true), Ok)
  }

  /** The id column is the primary key: an id that is there already is refused. */
  function Insert<S>(db: Db<S>, faults: Faults, id: string): (Db<S>, Outcome) {
    if !Answers(db, faults) || id in db.recorded then (Sent(db), Failed)
    else (Sent(db).(recorded := db.recorded + {id}), Ok)
  }

  function RunMigration<S>(db: Db<S>, faults: Faults, m: Migration<S>): (Db<S>, Outcome) {
    if m.id == "" then (db, MissingID)
    else if !Answers(db, faults) then (Sent(db), Failed)
    else if m.id in db.recorded then (Sent(db), Ok)
    else
      var e := m.up(db.schema);
      var after := Sent(db).(schema := e.schema);
      if !e.ok then (after, Failed) else Insert(after, faults, m.id)
  }

  function RunAll<S>(db: Db<S>, faults: Faults, ms: seq<Migration<S>>): (Db<S>, Outcome)
    decreases |ms|
  {
    if ms == [] then (db, Ok)
    else
      var (next, r) := RunMigration(db, faults, ms[0]);
      if r != Ok then (next, r) else RunAll(next, faults, ms[1..])
  }

  function InsertAll<S>(db: Db<S>, faults: Faults, ms: seq<Migration<S>>): (Db<S>, Outcome)
    decreases |ms|
  {
    if ms == [] then (db, Ok)
    else
      var (next, r) := Insert(db, faults, ms[0].id);
      if r != Ok then (next, r) else InsertAll(next, faults, ms[1..])
  }

  function RunInitSchema<S>(db: Db<S>, faults: Faults, ms: seq<Migration<S>>, init: S -> Effect<S>): (Db<S>, Outcome) {
    var e := init(db.schema);
    var after := db.(schema := e.schema);
    if !e.ok then (after, Failed) else InsertAll(after, faults, ms)
  }

  function Migrated<S>(db: Db<S>, faults: Faults, ms: seq<Migration<S>>, init: Option<S -> Effect<S>>): (Db<S>, Outcome) {
    var (ready, r) := CreateTable(db, faults);
    if r != Ok then (ready, r)
    else if faults(ready.sent) then (Sent(ready), Failed)
    else
      var asked := Sent(ready);
      if init.Some? && asked.recorded == {} then RunInitSchema(asked, faults, ms, init.value)
      else RunAll(asked, faults, ms)
  }

  /** The last migration that did run, from the end of the list. */
  function LastRun<S>(db: Db<S>, faults: Faults, ms: seq<Migration<S>>): (Db<S>, Outcome, Option<Migration<S>>)
    decreases |ms|
  {
    if ms == [] then (db, NoRunnedMigration, None)
    else
      var m := ms[|ms| - 1];
      if !Answers(db, faults) then (Sent(db), Failed, None)
      else if m.id in db.recorded then (Sent(db), Ok, Some(m))
      else LastRun(Sent(db), faults, ms[..|ms| - 1])
  }

  function RolledBack<S>(db: Db<S>, faults: Faults, m: Migration<S>): (Db<S>, Outcome) {
    if m.down.None? then (db, RollbackImpossible)
    else
      var e := m.down.value(db.schema);
      var after := db.(schema := e.schema);
      if !e.ok then (after, Failed)
      else if !Answers(after, faults) then (Sent(after), Failed)
      else (Sent(after).(recorded := after.recorded - {m.id}), Ok)
  }

  function RolledBackLast<S>(db: Db<S>, faults: Faults, ms: seq<Migration<S>>): (Db<S>, Outcome) {
    if ms == [] then (db, NoMigrationDefined)
    else
      var (asked, r, last) := LastRun(db, faults, ms);
      if last.None? then (asked, r) else RolledBack(asked, faults, last.value)
  }

  // ----- the code -----

  /** The database object behind the engine. */
  class Database<!S> {
    var hasTable: bool
    var recorded: set<string>
    var schema: S
    var sent: nat
    const faults: Faults

    function View(): Db<S>
      reads this
    { Db(hasTable, recorded, schema, sent) }

    constructor (start: S, faults: Faults)
      ensures View() == Db(false, {}, start, 0) && this.faults == faults
    { hasTable, recorded, schema, sent, this.faults := false, {}, start, 0, faults; }

    method Send() returns (ok: bool)
      modifies this`sent
      ensures View() == Sent(old(View())) && ok == !faults(old(sent))
    {
      ok := !faults(sent);
      sent := sent + 1;
    }

    method CreateMigrationTableIfNotExists() returns (r: Outcome)
      modifies this
      ensures (View(), r) == CreateTable(old(View()), faults)
    {
      var ok := Send();
      if !ok { return Failed; }
      if hasTable { return Ok; }
      ok := Send();
      if !ok { return Failed; }
      hasTable := true;
      return Ok;
    }

    method DidRun(id: string) returns (ok: bool, run: bool)
      modifies this`sent
      ensures View() == Sent(old(View())) && ok == Answers(old(View()), faults) && run == (id in recorded)
    {
      ok := Send();
      ok := ok && hasTable;
      run := id in recorded;
    }

    method InsertMigration(id: string) returns (r: Outcome)
      modifies this
      ensures (View(), r) == Insert(old(View()), faults, id)
    {
      var ok := Send();
      if !ok || !hasTable || id in recorded { return Failed; }
      recorded := recorded + {id};
      return Ok;
    }
  }

  class Migrator<!S> {
    const db: Database<S>
    const migrations: seq<Migration<S>>
    var initSchema: Option<S -> Effect<S>>

    constructor (db: Database<S>, migrations: seq<Migration<S>>)
      ensures this.db == db && this.migrations == migrations && initSchema == None
    { this.db, this.migrations, initSchema := db, migrations, None; }

    method RunOne(m: Migration<S>) returns (r: Outcome)
      modifies db
      ensures (db.View(), r) == RunMigration(old(db.View()), db.faults, m)
    {
      if |m.id| == 0 { return MissingID; }
      var ok, run := db.DidRun(m.id);
      if !ok { return Failed; }
      if !run {
        var e := m.up(db.schema);
        db.schema := e.schema;
        if !e.ok { return Failed; }
        r := db.InsertMigration(m.id);
        return r;
      }
      return Ok;
    }

    method InitAndRecord(init: S -> Effect<S>) returns (r: Outcome)
      modifies db
      ensures (db.View(), r) == RunInitSchema(old(db.View()), db.faults, migrations, init)
    {
      var e := init(db.schema);
      db.schema := e.schema;
      if !e.ok { return Failed; }
      ghost var start := db.View();
      assert migrations[0..] == migrations;
      for i := 0 to |migrations|
        invariant InsertAll(start, db.faults, migrations) == InsertAll(db.View(), db.faults, migrations[i..])
      {
        assert migrations[i..][1..] == migrations[i + 1..];
        r := db.InsertMigration(migrations[i].id);
        if r != Ok { return; }
      }
      return Ok;
    }

    method Migrate() returns (r: Outcome)
      modifies db
      ensures (db.View(), r) == Migrated(old(db.View()), db.faults, migrations, initSchema)
    {
      r := db.CreateMigrationTableIfNotExists();
      if r != Ok { return; }
      var ok := db.Send();
      if !ok { return Failed; }
      if initSchema.Some? && db.recorded == {} {
        r := InitAndRecord(initSchema.value);
        return;
      }
      ghost var start := db.View();
      assert migrations[0..] == migrations;
      for i := 0 to |migrations|
        invariant RunAll(start, db.faults, migrations) == RunAll(db.View(), db.faults, migrations[i..])
      {
        assert migrations[i..][1..] == migrations[i + 1..];
        r := RunOne(migrations[i]);
        if r != Ok { return; }
      }
      return Ok;
    }

    method GetLastRunned() returns (r: Outcome, last: Option<Migration<S>>)
      modifies db
      ensures (db.View(), r, last) == LastRun(old(db.View()), db.faults, migrations)
    {
      ghost var start := db.View();
      var i := |migrations| - 1;
      assert migrations[..|migrations|] == migrations;
      while i >= 0
        invariant -1 <= i < |migrations|
        invariant LastRun(start, db.faults, migrations) == LastRun(db.View(), db.faults, migrations[..i + 1])
      {
        var m := migrations[i];
        assert migrations[..i + 1][..i] == migrations[..i];
        var ok, run := db.DidRun(m.id);
        if !ok { return Failed, None; }
        if run { return Ok, Some(m); }
        i := i - 1;
      }
      return NoRunnedMigration, None;
    }

    method RollbackMigration(m: Migration<S>) returns (r: Outcome)
      modifies db
      ensures (db.View(), r) == RolledBack(old(db.View()), db.faults, m)
    {
      if m.down.None? { return RollbackImpossible; }
      var e := m.down.value(db.schema);
      db.schema := e.schema;
      if !e.ok { return Failed; }
      var ok := db.Send();
      if !ok || !db.hasTable { return Failed; }
      db.recorded := db.recorded - {m.id};
      return Ok;
    }

    method RollbackLast() returns (r: Outcome)
      modifies db
      ensures (db.View(), r) == RolledBackLast(old(db.View()), db.faults, migrations)
    {
      if |migrations| == 0 { return NoMigrationDefined; }
      var last;
      r, last := GetLastRunned();
      if last.None? { return; }
      r := RollbackMigration(last.value);
    }
  }

  // ----- the recorded ids are a prefix of the list -----

  function Ids<S>(ms: seq<Migration<S>>, k: nat): set<string>
    requires k <= |ms|
  {
    set i | 0 <= i < k :: ms[i].id
  }

  predicate Distinct<S>(ms: seq<Migration<S>>) { forall i, j :: 0 <= i < j < |ms| ==> ms[i].id != ms[j].id }

  /** All places of the q-th id lie between two places of another id. */
  predicate Enclosed<S>(ms: seq<Migration<S>>, q: nat)
    requires q < |ms|
  {
    exists p, r :: 0 <= p < q < r < |ms| && ms[p].id == ms[r].id != ms[q].id
      && forall i :: 0 <= i < |ms| && ms[i].id == ms[q].id ==> p < i < r
  }

  /** The ids come for the last time in the order in which they come for the first time. */
  predicate InOrder<S>(ms: seq<Migration<S>>) { forall q :: 0 <= q < |ms| ==> !Enclosed(ms, q) }

  lemma DistinctIsInOrder<S>(ms: seq<Migration<S>>)
    requires Distinct(ms)
    ensures InOrder(ms)
  {}

  /** The first k migrations are recorded, and no others. */
  predicate Recorded<S>(db: Db<S>, ms: seq<Migration<S>>, k: nat) { k <= |ms| && db.recorded == Ids(ms, k) }

  lemma IdAt<S>(ms: seq<Migration<S>>, i: nat, k: nat)
    requires Distinct(ms) && i < |ms| && k <= |ms|
    ensures ms[i].id in Ids(ms, k) <==> i < k
  {}

  lemma IdsWithoutLast<S>(ms: seq<Migration<S>>, k: nat)
    requires Distinct(ms) && 0 < k <= |ms|
    ensures Ids(ms, k) - {ms[k - 1].id} == Ids(ms, k - 1)
  {}

  /** Migrations that already ran are skipped; then each that succeeds is recorded in turn. */
  lemma {:induction false} RunAllRecords<S>(db: Db<S>, faults: Faults, ms: seq<Migration<S>>, i: nat, k: nat) returns (n: nat)
    requires Recorded(db, ms, k) && i <= k
    ensures
      var (after, r) := RunAll(db, faults, ms[i..]);
      k <= n && Recorded(after, ms, n) && (r == Ok ==> n == |ms|)
    decreases |ms| - i
  {
    if i == |ms| { return k; }
    var (next, r) := RunMigration(db, faults, ms[i]);
    assert ms[i..][1..] == ms[i + 1..];
    RunOneRecords(db, faults, ms, i, k);
    var reached := if r == Ok && i == k then k + 1 else k;
    if r != Ok { return reached; }
    n := RunAllRecords(next, faults, ms, i + 1, reached);
  }

  lemma RunOneRecords<S>(db: Db<S>, faults: Faults, ms: seq<Migration<S>>, i: nat, k: nat)
    requires Recorded(db, ms, k) && i <= k && i < |ms|
    ensures
      var (after, r) := RunMigration(db, faults, ms[i]);
      Recorded(after, ms, if r == Ok && i == k then k + 1 else k)
  {
    if i < k { assert ms[i].id in Ids(ms, k); } else { NextIds(ms, k); }
    hide Ids;
  }

  lemma NextIds<S>(ms: seq<Migration<S>>, k: nat)
    requires k < |ms|
    ensures Ids(ms, k + 1) == Ids(ms, k) + {ms[k].id}
  {}

  lemma {:induction false} InsertAllRecords<S>(db: Db<S>, faults: Faults, ms: seq<Migration<S>>, i: nat) returns (n: nat)
    requires Recorded(db, ms, i)
    ensures
      var (after, r) := InsertAll(db, faults, ms[i..]);
      i <= n && Recorded(after, ms, n) && (r == Ok ==> n == |ms|)
    decreases |ms| - i
  {
    if i == |ms| { return i; }
    var (next, r) := Insert(db, faults, ms[i].id);
    assert ms[i..][1..] == ms[i + 1..];
    if r != Ok { return i; }
    assert Ids(ms, i + 1) == Ids(ms, i) + {ms[i].id};
    n := InsertAllRecords(next, faults, ms, i + 1);
  }

  lemma NoneRecorded<S>(ms: seq<Migration<S>>, k: nat)
    requires k <= |ms|
    ensures Ids(ms, k) == {} <==> k == 0
  {
    assert k > 0 ==> ms[0].id in Ids(ms, k);
  }

  /** Migrate only lengthens the recorded prefix, and on success records the whole list. */
  lemma MigrateRecords<S>(db: Db<S>, faults: Faults, ms: seq<Migration<S>>, init: Option<S -> Effect<S>>, k: nat) returns (n: nat)
    requires Recorded(db, ms, k)
    ensures
      var (after, r) := Migrated(db, faults, ms, init);
      k <= n && Recorded(after, ms, n) && (r == Ok ==> n == |ms|)
  {
    var (ready, r) := CreateTable(db, faults);
    if r != Ok || faults(ready.sent) { return k; }
    var asked := Sent(ready);
    assert ms[0..] == ms;
    if init.Some? && asked.recorded == {} {
      NoneRecorded(ms, k);
      var e := init.value(asked.schema);
      if !e.ok { return 0; }
      n := InsertAllRecords(asked.(schema := e.schema), faults, ms, 0);
    } else {
      n := RunAllRecords(asked, faults, ms, 0, k);
    }
  }

  /** The search from the end of the list stops at the last place of a recorded id. */
  lemma {:induction false} LastRunFinds<S>(db: Db<S>, faults: Faults, ms: seq<Migration<S>>, j: nat) returns (i: nat)
    requires j <= |ms|
    ensures
      var (after, r, last) := LastRun(db, faults, ms[..j]);
      && after.recorded == db.recorded && after.schema == db.schema && after.hasTable == db.hasTable && after.sent >= db.sent
      && (last.Some? ==> i < j && last.value == ms[i] && r == Ok && after.hasTable && ms[i].id in db.recorded)
      && (last.Some? ==> forall x :: i < x < j ==> ms[x].id !in db.recorded)
      && (last.None? ==> r == Failed || r == NoRunnedMigration)
      && (r == NoRunnedMigration ==> forall x :: 0 <= x < j ==> ms[x].id !in db.recorded)
      && (db.hasTable && (forall t :: t >= db.sent ==> !faults(t)) ==> r != Failed)
    decreases j
  {
    i := 0;
    if j > 0 {
      assert ms[..j][..j - 1] == ms[..j - 1] && ms[..j][j - 1] == ms[j - 1];
      if !Answers(db, faults) {
      } else if ms[j - 1].id in db.recorded {
        i := j - 1;
      } else {
        i := LastRunFinds(Sent(db), faults, ms, j - 1);
      }
    }
  }

  /** The first place of an id from `x` on, or the length. */
  function FirstOf<S>(ms: seq<Migration<S>>, id: string, x: nat): (p: nat)
    requires x <= |ms|
    ensures x <= p <= |ms| && (p < |ms| ==> ms[p].id == id) && forall y :: x <= y < p ==> ms[y].id != id
    decreases |ms| - x
  {
    if x < |ms| && ms[x].id != id then FirstOf(ms, id, x + 1) else x
  }

  /** The first place of the i-th id. */
  function FirstPlace<S>(ms: seq<Migration<S>>, i: nat): (p: nat)
    requires i < |ms|
    ensures p <= i && ms[p].id == ms[i].id && forall x :: 0 <= x < p ==> ms[x].id != ms[i].id
  {
    FirstOf(ms, ms[i].id, 0)
  }

  /** In order, the id that comes last among the recorded ones also came last for the first time. */
  lemma TakeLast<S>(ms: seq<Migration<S>>, k: nat, i: nat)
    requires InOrder(ms) && k <= |ms| && i < |ms| && ms[i].id in Ids(ms, k)
    requires forall x :: i < x < |ms| ==> ms[x].id !in Ids(ms, k)
    ensures FirstPlace(ms, i) < k && Ids(ms, k) - {ms[i].id} == Ids(ms, FirstPlace(ms, i))
  {
    var p := FirstPlace(ms, i);
    var a :| 0 <= a < k && ms[a].id == ms[i].id;
    forall y | 0 <= y < k && ms[y].id != ms[i].id ensures ms[y].id in Ids(ms, p) {
      if forall x :: 0 <= x < |ms| && ms[x].id == ms[y].id ==> p < x {
        forall x | 0 <= x < |ms| && ms[x].id == ms[y].id ensures p < x < i { assert ms[x].id in Ids(ms, k); }
        assert Enclosed(ms, y);
      }
      var x :| 0 <= x < |ms| && ms[x].id == ms[y].id && x <= p;
      assert x != p;
    }
  }

  /** In order, RollbackLast leaves a prefix. */
  lemma RollbackKeepsPrefix<S>(db: Db<S>, faults: Faults, ms: seq<Migration<S>>, k: nat) returns (n: nat)
    requires InOrder(ms) && Recorded(db, ms, k)
    ensures
      var (after, r) := RolledBackLast(db, faults, ms);
      Recorded(after, ms, n) && (if r == Ok then n < k else n == k)
  {
    assert ms[..|ms|] == ms;
    var i := LastRunFinds(db, faults, ms, |ms|);
    n := k;
    var (asked, found, last) := LastRun(db, faults, ms);
    if last.Some? {
      TakeLast(ms, k, i);
      if RolledBack(asked, faults, last.value).1 == Ok { n := FirstPlace(ms, i); }
    }
  }

  /** With distinct ids RollbackLast takes the last id off the prefix, exactly when it succeeds. */
  lemma RollbackRecords<S>(db: Db<S>, faults: Faults, ms: seq<Migration<S>>, k: nat)
    requires Distinct(ms) && Recorded(db, ms, k)
    ensures
      var (after, r) := RolledBackLast(db, faults, ms);
      (r == Ok ==> k > 0) && Recorded(after, ms, if r == Ok then k - 1 else k)
  {
    assert ms[..|ms|] == ms;
    var i := LastRunFinds(db, faults, ms, |ms|);
    var (asked, found, last) := LastRun(db, faults, ms);
    if last.Some? {
      LastIsLast(ms, k, i);
      IdsWithoutLast(ms, k);
    }
    hide LastRun, Ids, Distinct;
  }

  lemma LastIsLast<S>(ms: seq<Migration<S>>, k: nat, i: nat)
    requires Distinct(ms) && k <= |ms| && i < |ms| && ms[i].id in Ids(ms, k)
    requires forall x :: i < x < |ms| ==> ms[x].id !in Ids(ms, k)
    ensures k > 0 && i == k - 1
  {
    assert ms[k - 1].id in Ids(ms, k);
  }

  datatype Call = DoMigrate | DoRollbackLast

  function Do<S>(db: Db<S>, faults: Faults, ms: seq<Migration<S>>, init: Option<S -> Effect<S>>, call: Call): Db<S> {
    match call
    case DoMigrate => Migrated(db, faults, ms, init).0
    case DoRollbackLast => RolledBackLast(db, faults, ms).0
  }

  function DoAll<S>(db: Db<S>, faults: Faults, ms: seq<Migration<S>>, init: Option<S -> Effect<S>>, calls: seq<Call>): Db<S>
    decreases |calls|
  {
    if calls == [] then db else DoAll(Do(db, faults, ms, init, calls[0]), faults, ms, init, calls[1..])
  }

  lemma {:induction false} DoAllRecords<S>(db: Db<S>, faults: Faults, ms: seq<Migration<S>>,
                                           init: Option<S -> Effect<S>>, calls: seq<Call>, k: nat)
    returns (n: nat)
    requires InOrder(ms) && Recorded(db, ms, k)
    ensures Recorded(DoAll(db, faults, ms, init, calls), ms, n)
    decreases |calls|
  {
    if calls == [] { return k; }
    var next := k;
    if calls[0].DoMigrate? {
      next := MigrateRecords(db, faults, ms, init, k);
    } else {
      next := RollbackKeepsPrefix(db, faults, ms, k);
    }
    n := DoAllRecords(Do(db, faults, ms, init, calls[0]), faults, ms, init, calls[1..], next);
  }

  /** Over any run from an empty table, with any statements and any migrations failing, the
      recorded ids are those of a prefix of the list, if the ids are in order. */
  lemma AlwaysAPrefix<S>(start: S, faults: Faults, ms: seq<Migration<S>>, init: Option<S -> Effect<S>>, calls: seq<Call>)
    requires InOrder(ms)
    ensures exists k :: Recorded(DoAll(Db(false, {}, start, 0), faults, ms, init, calls), ms, k)
  {
    var db := Db(false, {}, start, 0);
    assert Ids(ms, 0) == {};
    var n := DoAllRecords(db, faults, ms, init, calls, 0);
  }

  /** As distinct ids are. */
  lemma DistinctStayAPrefix<S>(start: S, faults: Faults, ms: seq<Migration<S>>, init: Option<S -> Effect<S>>, calls: seq<Call>)
    requires Distinct(ms)
    ensures exists k :: Recorded(DoAll(Db(false, {}, start, 0), faults, ms, init, calls), ms, k)
  {
    DistinctIsInOrder(ms);
    AlwaysAPrefix(start, faults, ms, init, calls);
  }

  // ----- ids out of order -----

  ghost predicate Succeeds(f: int -> Effect<int>) { forall s :: f(s) == Effect(s, true) }

  /** It always succeeds, and so does its rollback. */
  ghost predicate Obliging(m: Migration<int>) { Succeeds(m.up) && m.down.Some? && Succeeds(m.down.value) }

  /** Such migrations with these ids. */
  function Willing(ids: seq<string>): (ms: seq<Migration<int>>)
    ensures |ms| == |ids| && (forall i :: 0 <= i < |ids| ==> ms[i].id == ids[i] && Obliging(ms[i]))
  {
    if ids == [] then []
    else Willing(ids[..|ids| - 1]) + [Migration(ids[|ids| - 1], s => Effect(s, true), Some(s => Effect(s, true)))]
  }

  /** No statement fails. */
  function NoFaults(): Faults { t => false }

  predicate Named(ids: seq<string>) { forall i :: 0 <= i < |ids| ==> ids[i] != "" }

  lemma ObligingRuns(db: Db<int>, m: Migration<int>)
    requires db.hasTable && Obliging(m) && m.id != ""
    ensures
      var (after, r) := RunMigration(db, NoFaults(), m);
      r == Ok && after.hasTable
  {
    var f := m.up;
    var now: int := db.schema;
    assert f(now) == Effect(now, true);
  }

  lemma {:induction false} WillingRuns(db: Db<int>, ids: seq<string>, i: nat)
    requires Named(ids) && db.hasTable && i <= |ids|
    ensures
      var (after, r) := RunAll(db, NoFaults(), Willing(ids)[i..]);
      r == Ok && after.hasTable
    decreases |ids| - i
  {
    var ms := Willing(ids);
    if i < |ids| {
      assert ms[i..][1..] == ms[i + 1..] && ms[i..][0] == ms[i];
      ObligingRuns(db, ms[i]);
      WillingRuns(RunMigration(db, NoFaults(), ms[i]).0, ids, i + 1);
    }
  }

  function FullTable(ids: seq<string>): Db<int> { Migrated(Db(false, {}, 0, 0), NoFaults(), Willing(ids), None).0 }

  lemma AllRecorded(ids: seq<string>)
    requires Named(ids)
    ensures Recorded(FullTable(ids), Willing(ids), |ids|) && FullTable(ids).hasTable
  {
    var db, ms := Db(false, {}, 0, 0), Willing(ids);
    assert Ids(ms, 0) == {} && ms[0..] == ms;
    WillingRuns(Sent(CreateTable(db, NoFaults()).0), ids, 0);
    var n := MigrateRecords(db, NoFaults(), ms, None, 0);
  }

  /** One rollback takes the id away that comes last. */
  lemma WillingRollsBack(db: Db<int>, ids: seq<string>, i: nat)
    requires db.hasTable && i < |ids| && ids[i] in db.recorded && forall x :: i < x < |ids| ==> ids[x] !in db.recorded
    ensures RolledBackLast(db, NoFaults(), Willing(ids)).0.recorded == db.recorded - {ids[i]}
    ensures RolledBackLast(db, NoFaults(), Willing(ids)).0.hasTable
  {
    var ms := Willing(ids);
    assert ms[..|ms|] == ms;
    var j := LastRunFinds(db, NoFaults(), ms, |ms|);
    assert ms[i].id in db.recorded && Obliging(ms[i]);
    hide LastRun, Willing;
    var asked := LastRun(db, NoFaults(), ms).0;
    assert j == i;
    ObligingRollsBack(asked, ms[i]);
  }

  lemma ObligingRollsBack(db: Db<int>, m: Migration<int>)
    requires db.hasTable && Obliging(m)
    ensures RolledBack(db, NoFaults(), m).0.recorded == db.recorded - {m.id} && RolledBack(db, NoFaults(), m).0.hasTable
  {
    var f := m.down.value;
    var now: int := db.schema;
    assert f(now) == Effect(now, true);
  }

  function LastPlace(ids: seq<string>, recorded: set<string>, n: nat): (i: nat)
    requires n <= |ids| && exists x :: 0 <= x < n && ids[x] in recorded
    ensures i < n && ids[i] in recorded && forall x :: i < x < n ==> ids[x] !in recorded
  {
    if ids[n - 1] in recorded then n - 1 else LastPlace(ids, recorded, n - 1)
  }

  /** A record that has the enclosed id and not the enclosing one is no prefix. */
  lemma NoPrefix(ids: seq<string>, p: nat, q: nat, recorded: set<string>)
    requires p < |ids| && q < |ids| && ids[p] !in recorded && ids[q] in recorded
    requires forall i :: 0 <= i < |ids| && ids[i] == ids[q] ==> p < i
    ensures forall k :: 0 <= k <= |ids| ==> recorded != Ids(Willing(ids), k)
  {
    var ms := Willing(ids);
    forall k | 0 <= k <= |ids| ensures recorded != Ids(ms, k) {
      if ids[q] in Ids(ms, k) {
        var x :| 0 <= x < k && ms[x].id == ids[q];
        assert ms[p].id in Ids(ms, k);
      }
    }
  }

  /** The run keeps the recorded ids a prefix. */
  ghost predicate EndsInPrefix(db: Db<int>, ids: seq<string>, calls: seq<Call>) {
    exists k :: Recorded(DoAll(db, NoFaults(), Willing(ids), None, calls), Willing(ids), k)
  }

  lemma OneCall(db: Db<int>, ids: seq<string>, call: Call, more: seq<Call>)
    ensures EndsInPrefix(db, ids, [call] + more) <==> EndsInPrefix(Do(db, NoFaults(), Willing(ids), None, call), ids, more)
  {
    assert ([call] + more)[1..] == more;
    var ms := Willing(ids);
    assert DoAll(db, NoFaults(), ms, None, [call] + more) == DoAll(Do(db, NoFaults(), ms, None, call), NoFaults(), ms, None, more);
  }

  /** Rolling back one by one comes to the enclosing id before the enclosed one. */
  lemma {:induction false} RollbacksBreak(db: Db<int>, ids: seq<string>, p: nat, q: nat, r: nat) returns (calls: seq<Call>)
    requires db.hasTable && p < q < r < |ids| && ids[p] == ids[r] != ids[q] && ids[p] in db.recorded && ids[q] in db.recorded
    requires forall i :: 0 <= i < |ids| && ids[i] == ids[q] ==> p < i < r
    ensures !EndsInPrefix(db, ids, calls)
    decreases |db.recorded|
  {
    hide Willing, LastPlace, RolledBackLast, EndsInPrefix;
    assert ids[r] in db.recorded;
    var i := LastPlace(ids, db.recorded, |ids|);
    WillingRollsBack(db, ids, i);
    var after := Do(db, NoFaults(), Willing(ids), None, DoRollbackLast);
    if ids[i] == ids[p] {
      NoPrefix(ids, p, q, after.recorded);
      NothingCalled(after, ids);
      OneCall(db, ids, DoRollbackLast, []);
      calls := [DoRollbackLast] + [];
    } else {
      assert i >= r;
      Fewer(db.recorded, ids[i]);
      var more := RollbacksBreak(after, ids, p, q, r);
      OneCall(db, ids, DoRollbackLast, more);
      calls := [DoRollbackLast] + more;
    }
  }

  lemma NothingCalled(db: Db<int>, ids: seq<string>)
    requires forall k :: 0 <= k <= |ids| ==> db.recorded != Ids(Willing(ids), k)
    ensures !EndsInPrefix(db, ids, [])
  {}

  lemma Fewer(s: set<string>, x: string)
    requires x in s
    ensures |s - {x}| < |s|
  {}

  /** For every list of ids that are not empty: every run from the empty table, with migrations that
      all succeed already, keeps the recorded ids a prefix exactly if the ids are in order. */
  lemma PrefixIff(ids: seq<string>)
    requires Named(ids)
    ensures InOrder(Willing(ids)) <==> forall calls :: EndsInPrefix(Db(false, {}, 0, 0), ids, calls)
  {
    if InOrder(Willing(ids)) {
      forall calls ensures EndsInPrefix(Db(false, {}, 0, 0), ids, calls) {
        AlwaysAPrefix(0, NoFaults(), Willing(ids), None, calls);
      }
    } else {
      var calls := OutOfOrderBreaks(ids);
    }
  }

  lemma TableIsMigrated(ids: seq<string>)
    ensures Do(Db(false, {}, 0, 0), NoFaults(), Willing(ids), None, DoMigrate) == FullTable(ids)
  {}

  lemma EnclosedPlace(ids: seq<string>) returns (p: nat, q: nat, r: nat)
    requires !InOrder(Willing(ids))
    ensures p < q < r < |ids| && ids[p] == ids[r] != ids[q] && forall i :: 0 <= i < |ids| && ids[i] == ids[q] ==> p < i < r
    ensures ids[p] in Ids(Willing(ids), |ids|) && ids[q] in Ids(Willing(ids), |ids|)
  {
    hide Willing;
    var ms := Willing(ids);
    q :| 0 <= q < |ms| && Enclosed(ms, q);
    p, r :| 0 <= p < q < r < |ms| && ms[p].id == ms[r].id != ms[q].id
      && forall i :: 0 <= i < |ms| && ms[i].id == ms[q].id ==> p < i < r;
    hide Enclosed, InOrder;
    IdIn(ms, p);
    IdIn(ms, q);
    forall i | 0 <= i < |ids| && ids[i] == ids[q] ensures p < i < r { assert ms[i].id == ms[q].id; }
    hide Ids;
  }

  lemma IdIn<S>(ms: seq<Migration<S>>, i: nat)
    requires i < |ms|
    ensures ms[i].id in Ids(ms, |ms|)
  {}

  lemma OutOfOrderBreaks(ids: seq<string>) returns (calls: seq<Call>)
    requires Named(ids) && !InOrder(Willing(ids))
    ensures !EndsInPrefix(Db(false, {}, 0, 0), ids, calls)
  {
    hide Willing, EndsInPrefix, Migrated, FullTable, Enclosed, InOrder, Obliging, Ids;
    var ms, db := Willing(ids), Db(false, {}, 0, 0);
    var p, q, r := EnclosedPlace(ids);
    AllRecorded(ids);
    TableIsMigrated(ids);
    var more := RollbacksBreak(FullTable(ids), ids, p, q, r);
    OneCall(db, ids, DoMigrate, more);
    calls := [DoMigrate] + more;
  }

  /** The shortest list out of order. */
  lemma OutOfOrder()
    ensures !InOrder(Willing(["a", "b", "a"])) && InOrder(Willing(["a", "a"]))
  {
    var ms := Willing(["a", "b", "a"]);
    assert ms[0].id == ms[2].id == "a" && ms[1].id == "b";
    assert Enclosed(ms, 1);
    var twice := Willing(["a", "a"]);
    assert twice[0].id == twice[1].id;
  }

  // ----- the schema follows the record -----

  /** The schema after the first k migrations. */
  function Applied<S>(start: S, ms: seq<Migration<S>>, k: nat): S
    requires k <= |ms|
  {
    if k == 0 then start else ms[k - 1].up(Applied(start, ms, k - 1)).schema
  }

  /** A failing migration function leaves the schema alone, and a rollback undoes its migration. */
  ghost predicate CleanOne<S(!new)>(m: Migration<S>) {
    forall s :: (!m.up(s).ok ==> m.up(s).schema == s)
             && (m.up(s).ok && m.down.Some? ==> m.down.value(m.up(s).schema) == Effect(s, true))
  }

  ghost predicate Clean<S(!new)>(ms: seq<Migration<S>>) { forall i :: 0 <= i < |ms| ==> CleanOne(ms[i]) }

  /** The record and the schema agree on the first k migrations, which all succeed from `start`. */
  ghost predicate InStep<S(!new)>(db: Db<S>, start: S, ms: seq<Migration<S>>, k: nat) {
    Recorded(db, ms, k) && db.schema == Applied(start, ms, k) && Succeed(start, ms, k)
  }

  predicate Succeed<S>(start: S, ms: seq<Migration<S>>, k: nat)
    requires k <= |ms|
  {
    k == 0 || (Succeed(start, ms, k - 1) && ms[k - 1].up(Applied(start, ms, k - 1)).ok)
  }

  /** Once the table exists no statement fails. */
  ghost predicate Reliable<S>(db: Db<S>, faults: Faults) { db.hasTable && forall t :: t >= db.sent ==> !faults(t) }

  lemma {:induction false} RunAllInStep<S(!new)>(db: Db<S>, faults: Faults, start: S, ms: seq<Migration<S>>, i: nat,
                                                 k: nat) returns (n: nat)
    requires Distinct(ms) && Clean(ms) && Reliable(db, faults) && InStep(db, start, ms, k) && i <= k <= |ms|
    ensures
      var (after, r) := RunAll(db, faults, ms[i..]);
      k <= n && InStep(after, start, ms, n) && Reliable(after, faults) && (r == Ok ==> n == |ms|)
    decreases |ms| - i
  {
    hide Clean, Distinct, InStep, Reliable, RunMigration;
    if i == |ms| { return k; }
    var (next, r) := RunMigration(db, faults, ms[i]);
    assert ms[i..][1..] == ms[i + 1..];
    RunOneInStep(db, faults, start, ms, i, k);
    var reached := if r == Ok && i == k then k + 1 else k;
    if r != Ok { return reached; }
    n := RunAllInStep(next, faults, start, ms, i + 1, reached);
  }

  lemma RunOneInStep<S(!new)>(db: Db<S>, faults: Faults, start: S, ms: seq<Migration<S>>, i: nat, k: nat)
    requires Distinct(ms) && Clean(ms) && Reliable(db, faults) && InStep(db, start, ms, k) && i <= k && i < |ms|
    ensures
      var (after, r) := RunMigration(db, faults, ms[i]);
      InStep(after, start, ms, if r == Ok && i == k then k + 1 else k) && Reliable(after, faults)
  {
    hide Clean, CleanOne, Distinct, Ids;
    RunOneRecords(db, faults, ms, i, k);
    IdAt(ms, i, k);
    if i == k {
      CleanAt(ms, k);
      UpInStep(db, faults, start, ms, k);
    }
  }

  lemma CleanAt<S(!new)>(ms: seq<Migration<S>>, i: nat)
    requires Clean(ms) && i < |ms|
    ensures CleanOne(ms[i])
  {}

  lemma UpInStep<S(!new)>(db: Db<S>, faults: Faults, start: S, ms: seq<Migration<S>>, k: nat)
    requires k < |ms| && CleanOne(ms[k]) && Reliable(db, faults) && InStep(db, start, ms, k) && ms[k].id !in db.recorded
    ensures
      var (after, r) := RunMigration(db, faults, ms[k]);
      && Reliable(after, faults)
      && after.schema == Applied(start, ms, if r == Ok then k + 1 else k)
      && (r == Ok ==> ms[k].up(Applied(start, ms, k)).ok)
  {
    assert !faults(db.sent) && !faults(db.sent + 1);
    var e := ms[k].up(db.schema);
    assert !e.ok ==> e.schema == db.schema;
    AppliedNext(start, ms, k);
    hide CleanOne, Applied, Succeed, Ids;
  }

  lemma AppliedNext<S>(start: S, ms: seq<Migration<S>>, k: nat)
    requires k < |ms|
    ensures Applied(start, ms, k + 1) == ms[k].up(Applied(start, ms, k)).schema
  {}

  /** When no statement fails and failing migrations are clean, Migrate keeps the schema in step
      with the record, wherever it stops. */
  lemma MigrateInStep<S(!new)>(db: Db<S>, faults: Faults, start: S, ms: seq<Migration<S>>, k: nat) returns (n: nat)
    requires Distinct(ms) && Clean(ms) && InStep(db, start, ms, k) && forall t :: t >= db.sent ==> !faults(t)
    ensures
      var (after, r) := Migrated(db, faults, ms, None);
      k <= n && InStep(after, start, ms, n) && Reliable(after, faults) && (r == Ok ==> n == |ms|)
  {
    var (ready, r) := CreateTable(db, faults);
    assert ms[0..] == ms;
    n := RunAllInStep(Sent(ready), faults, start, ms, 0, k);
  }

  lemma RollbackInStep<S(!new)>(db: Db<S>, faults: Faults, start: S, ms: seq<Migration<S>>, k: nat)
    requires Distinct(ms) && Clean(ms) && Reliable(db, faults) && InStep(db, start, ms, k) && k > 0
    requires ms[k - 1].down.Some?
    ensures
      var (after, r) := RolledBackLast(db, faults, ms);
      r == Ok && InStep(after, start, ms, k - 1) && Reliable(after, faults)
  {
    hide Clean, CleanOne, Distinct, Ids, LastRun, RolledBack;
    assert ms[..|ms|] == ms;
    CleanAt(ms, k - 1);
    ReliableLastRun(db, faults, ms, |ms|, k);
    IdsWithoutLast(ms, k);
    DownInStep(LastRun(db, faults, ms).0, faults, ms[k - 1], Applied(start, ms, k - 1));
  }

  lemma DownInStep<S(!new)>(db: Db<S>, faults: Faults, m: Migration<S>, before: S)
    requires CleanOne(m) && m.down.Some? && m.up(before).ok && db.schema == m.up(before).schema && Reliable(db, faults)
    ensures
      var (after, r) := RolledBack(db, faults, m);
      r == Ok && after.schema == before && after.recorded == db.recorded - {m.id} && Reliable(after, faults)
  {
    assert m.down.value(m.up(before).schema) == Effect(before, true);
  }

  lemma {:induction false} ReliableLastRun<S>(db: Db<S>, faults: Faults, ms: seq<Migration<S>>, j: nat, k: nat)
    requires Distinct(ms) && Recorded(db, ms, k) && 0 < k <= j <= |ms| && Reliable(db, faults)
    ensures
      var (after, r, last) := LastRun(db, faults, ms[..j]);
      && last == Some(ms[k - 1]) && after == db.(sent := after.sent) && after.sent >= db.sent
    decreases j
  {
    assert ms[..j][..j - 1] == ms[..j - 1];
    if j == k { assert ms[j - 1].id in Ids(ms, k); }
    else {
      assert ms[j - 1].id !in Ids(ms, k);
      ReliableLastRun(Sent(db), faults, ms, j - 1, k);
    }
  }

  function RollbackTimes<S>(db: Db<S>, faults: Faults, ms: seq<Migration<S>>, n: nat): Db<S>
    decreases n
  {
    if n == 0 then db else RollbackTimes(RolledBackLast(db, faults, ms).0, faults, ms, n - 1)
  }

  lemma {:induction false} RollbackAll<S(!new)>(db: Db<S>, faults: Faults, start: S, ms: seq<Migration<S>>, k: nat)
    requires Distinct(ms) && Clean(ms) && Reliable(db, faults) && InStep(db, start, ms, k)
    requires forall i :: 0 <= i < k ==> ms[i].down.Some?
    ensures RollbackTimes(db, faults, ms, k).schema == start && RollbackTimes(db, faults, ms, k).recorded == {}
    decreases k
  {
    hide Clean, Distinct, Ids, RolledBackLast, Reliable, Succeed;
    if k > 0 {
      RollbackInStep(db, faults, start, ms, k);
      RollbackAll(RolledBackLast(db, faults, ms).0, faults, start, ms, k - 1);
    } else {
      NoneRecorded(ms, 0);
    }
  }

  /** A Migrate from an empty table, complete or stopped by a failing migration, followed by one
      RollbackLast for each recorded id, restores the schema and the record. */
  lemma MigrateThenRollback<S(!new)>(start: S, faults: Faults, ms: seq<Migration<S>>) returns (n: nat)
    requires Distinct(ms) && Clean(ms) && (forall i :: 0 <= i < |ms| ==> ms[i].down.Some?) && forall t :: !faults(t)
    ensures
      var (after, r) := Migrated(Db(false, {}, start, 0), faults, ms, None);
      && n <= |ms| && Recorded(after, ms, n) && (r == Ok ==> n == |ms|)
      && RollbackTimes(after, faults, ms, n).schema == start && RollbackTimes(after, faults, ms, n).recorded == {}
  {
    var db := Db(false, {}, start, 0);
    assert Ids(ms, 0) == {};
    n := MigrateInStep(db, faults, start, ms, 0);
    RollbackAll(Migrated(db, faults, ms, None).0, faults, start, ms, n);
  }

  /** Recording is a statement of its own: when it fails the schema is one migration ahead of the
      record, and the next Migrate runs that migration again. */
  lemma UnrecordedRunsAgain<S>(db: Db<S>, faults: Faults, m: Migration<S>)
    requires m.id != "" && m.id !in db.recorded && Answers(db, faults) && m.up(db.schema).ok
    requires faults(db.sent + 1) && !faults(db.sent + 2)
    ensures
      var (after, r) := RunMigration(db, faults, m);
      && r == Failed && after.recorded == db.recorded && after.schema == m.up(db.schema).schema
      && RunMigration(after, faults, m).0.schema == m.up(m.up(db.schema).schema).schema
  {}

  // ----- exactly when schema and record stay in step -----

  /** A migration that succeeds changes the schema. */
  ghost predicate ChangingOne<S(!new)>(m: Migration<S>) { forall s :: m.up(s).ok ==> m.up(s).schema != s }

  ghost predicate Changing<S(!new)>(ms: seq<Migration<S>>) { forall i :: 0 <= i < |ms| ==> ChangingOne(ms[i]) }

  /** The INSERT that is to record the migration fails, after the migration has succeeded. */
  predicate Unrecorded<S>(db: Db<S>, faults: Faults, m: Migration<S>) {
    && m.id != "" && Answers(db, faults) && m.id !in db.recorded && m.up(db.schema).ok && faults(db.sent + 1)
  }

  /** That happens to one of the migrations of a run. */
  predicate SomeUnrecorded<S>(db: Db<S>, faults: Faults, ms: seq<Migration<S>>)
    decreases |ms|
  {
    ms != [] &&
    (Unrecorded(db, faults, ms[0])
     || (RunMigration(db, faults, ms[0]).1 == Ok && SomeUnrecorded(RunMigration(db, faults, ms[0]).0, faults, ms[1..])))
  }

  ghost predicate SomewhereInStep<S(!new)>(db: Db<S>, start: S, ms: seq<Migration<S>>) {
    exists n :: InStep(db, start, ms, n)
  }

  /** One migration in its place: recorded and run, or neither, unless the INSERT fails. */
  lemma OneInStepIff<S(!new)>(db: Db<S>, faults: Faults, start: S, ms: seq<Migration<S>>, i: nat, k: nat)
    requires Distinct(ms) && Clean(ms) && InStep(db, start, ms, k) && i <= k && i < |ms|
    ensures
      var (after, r) := RunMigration(db, faults, ms[i]);
      && (!Unrecorded(db, faults, ms[i]) ==> InStep(after, start, ms, if r == Ok && i == k then k + 1 else k))
      && (Unrecorded(db, faults, ms[i]) ==>
            i == k && r != Ok && Recorded(after, ms, k) && after.schema == ms[k].up(db.schema).schema && ms[k].up(db.schema).ok)
  {
    hide Clean, Distinct, Ids;
    IdAt(ms, i, k);
    RunOneRecords(db, faults, ms, i, k);
    if i == k {
      CleanAt(ms, k);
      UpOrNot(db, faults, ms[k]);
    }
    hide CleanOne;
  }

  lemma UpOrNot<S(!new)>(db: Db<S>, faults: Faults, m: Migration<S>)
    requires CleanOne(m) && m.id !in db.recorded
    ensures
      var (after, r) := RunMigration(db, faults, m);
      && (r == Ok <==> m.id != "" && Answers(db, faults) && m.up(db.schema).ok && !faults(db.sent + 1))
      && (r == Ok || Unrecorded(db, faults, m) ==> after.schema == m.up(db.schema).schema && m.up(db.schema).ok)
      && (r != Ok && !Unrecorded(db, faults, m) ==> after.schema == db.schema)
  {
    var now := db.schema;
    assert !m.up(now).ok ==> m.up(now).schema == now;
  }

  /** A schema one migration ahead of the record is in step nowhere. */
  lemma AheadIsOutOfStep<S(!new)>(db: Db<S>, start: S, ms: seq<Migration<S>>, k: nat)
    requires Distinct(ms) && Changing(ms) && k < |ms| && Recorded(db, ms, k) && ms[k].up(Applied(start, ms, k)).ok
    requires db.schema == ms[k].up(Applied(start, ms, k)).schema
    ensures !SomewhereInStep(db, start, ms)
  {
    var now := Applied(start, ms, k);
    assert ChangingOne(ms[k]) && ms[k].up(now).schema != now;
    forall n | InStep(db, start, ms, n) ensures n == k { SamePrefix(ms, n, k); }
  }

  lemma SamePrefix<S>(ms: seq<Migration<S>>, n: nat, k: nat)
    requires Distinct(ms) && n <= |ms| && k <= |ms| && Ids(ms, n) == Ids(ms, k)
    ensures n == k
  {
    if n < k { IdAt(ms, n, k); IdAt(ms, n, n); }
    if k < n { IdAt(ms, k, n); IdAt(ms, k, k); }
  }

  lemma {:induction false} RunAllInStepIff<S(!new)>(db: Db<S>, faults: Faults, start: S, ms: seq<Migration<S>>, i: nat, k: nat)
    requires Distinct(ms) && Clean(ms) && Changing(ms) && InStep(db, start, ms, k) && i <= k <= |ms|
    ensures SomewhereInStep(RunAll(db, faults, ms[i..]).0, start, ms) <==> !SomeUnrecorded(db, faults, ms[i..])
    decreases |ms| - i
  {
    hide Clean, Distinct, Changing, Recorded, Applied, Succeed, Unrecorded, RunMigration;
    if i < |ms| {
      var (next, r) := RunMigration(db, faults, ms[i]);
      assert ms[i..][1..] == ms[i + 1..] && ms[i..][0] == ms[i];
      OneInStepIff(db, faults, start, ms, i, k);
      if Unrecorded(db, faults, ms[i]) {
        assert db.schema == Applied(start, ms, k);
        AheadIsOutOfStep(next, start, ms, k);
      } else {
        var reached := if r == Ok && i == k then k + 1 else k;
        if r == Ok { RunAllInStepIff(next, faults, start, ms, i + 1, reached); }
      }
    }
  }

  /** Whatever fails, a Migrate from a state in step, of migrations that change the schema if they
      succeed and leave it alone if not, ends in step exactly unless the INSERT that is to record a
      migration fails after the migration has run. */
  lemma MigrateInStepIff<S(!new)>(db: Db<S>, faults: Faults, start: S, ms: seq<Migration<S>>, k: nat)
    requires Distinct(ms) && Clean(ms) && Changing(ms) && InStep(db, start, ms, k)
    ensures
      var (ready, r) := CreateTable(db, faults);
      SomewhereInStep(Migrated(db, faults, ms, None).0, start, ms) <==>
        !(r == Ok && !faults(ready.sent) && SomeUnrecorded(Sent(ready), faults, ms))
  {
    var (ready, r) := CreateTable(db, faults);
    assert ms[0..] == ms;
    if r == Ok && !faults(ready.sent) {
      RunAllInStepIff(Sent(ready), faults, start, ms, 0, k);
    } else {
      assert InStep(Migrated(db, faults, ms, None).0, start, ms, k);
    }
  }

  /** The DELETE that is to take the id away fails, after the rollback has run. */
  predicate Undeleted<S>(db: Db<S>, faults: Faults, ms: seq<Migration<S>>) {
    var (asked, r, last) := LastRun(db, faults, ms);
    last.Some? && last.value.down.Some? && faults(asked.sent)
  }

  /** So does a RollbackLast, exactly unless the DELETE fails after the rollback has run. */
  lemma RollbackInStepIff<S(!new)>(db: Db<S>, faults: Faults, start: S, ms: seq<Migration<S>>, k: nat)
    requires Distinct(ms) && Clean(ms) && Changing(ms) && InStep(db, start, ms, k)
    ensures SomewhereInStep(RolledBackLast(db, faults, ms).0, start, ms) <==> !Undeleted(db, faults, ms)
  {
    hide Clean, Distinct, Changing, Applied, Succeed, LastRun, RolledBack, Ids;
    assert ms[..|ms|] == ms;
    var i := LastRunFinds(db, faults, ms, |ms|);
    var (asked, r, last) := LastRun(db, faults, ms);
    var after := RolledBackLast(db, faults, ms).0;
    assert InStep(asked, start, ms, k);
    if last.Some? {
      LastIsLast(ms, k, i);
      TakenBack(asked, faults, start, ms, k);
      if last.value.down.Some? && faults(asked.sent) {
        BehindIsOutOfStep(after, start, ms, k);
      }
    }
  }

  /** Taking the last recorded migration back. */
  lemma TakenBack<S(!new)>(db: Db<S>, faults: Faults, start: S, ms: seq<Migration<S>>, k: nat)
    requires Distinct(ms) && Clean(ms) && InStep(db, start, ms, k) && db.hasTable && k > 0
    ensures ms[k - 1].up(Applied(start, ms, k - 1)).ok
    ensures
      var after := RolledBack(db, faults, ms[k - 1]).0;
      if ms[k - 1].down.None? then after == db
      else if faults(db.sent) then Recorded(after, ms, k) && after.schema == Applied(start, ms, k - 1)
      else InStep(after, start, ms, k - 1)
  {
    hide Clean, Distinct, Ids;
    CleanAt(ms, k - 1);
    IdsWithoutLast(ms, k);
    if ms[k - 1].down.Some? { DownUndoes(ms[k - 1], Applied(start, ms, k - 1)); }
  }

  lemma DownUndoes<S(!new)>(m: Migration<S>, before: S)
    requires CleanOne(m) && m.down.Some? && m.up(before).ok
    ensures m.down.value(m.up(before).schema) == Effect(before, true)
  {}

  lemma BehindIsOutOfStep<S(!new)>(db: Db<S>, start: S, ms: seq<Migration<S>>, k: nat)
    requires Distinct(ms) && Changing(ms) && 0 < k <= |ms| && Recorded(db, ms, k) && ms[k - 1].up(Applied(start, ms, k - 1)).ok
    requires db.schema == Applied(start, ms, k - 1)
    ensures !SomewhereInStep(db, start, ms)
  {
    var now := Applied(start, ms, k - 1);
    assert ChangingOne(ms[k - 1]) && ms[k - 1].up(now).schema != now;
    forall n | InStep(db, start, ms, n) ensures n == k { SamePrefix(ms, n, k); }
  }

  // ----- InitSchema -----

  lemma {:induction false} InsertAllIs<S>(db: Db<S>, faults: Faults, ms: seq<Migration<S>>, i: nat)
    requires i <= |ms| && Distinct(ms) && Recorded(db, ms, i)
    ensures
      var (after, r) := InsertAll(db, faults, ms[i..]);
      && after.schema == db.schema && after.hasTable == db.hasTable
      && (r == Ok ==> Recorded(after, ms, |ms|)) && (Reliable(db, faults) ==> r == Ok)
    decreases |ms| - i
  {
    if i < |ms| {
      assert ms[i..][1..] == ms[i + 1..];
      NextIds(ms, i);
      IdAt(ms, i, i);
      var next := Insert(db, faults, ms[i].id).0;
      if Answers(db, faults) { InsertAllIs(next, faults, ms, i + 1); }
      hide Distinct, Ids;
    }
  }

  /** On a first run InitSchema takes the place of the whole list: whatever fails afterwards, the
      schema is the one it leaves, no migration runs, and success means that all ids are recorded;
      where no statement fails it succeeds if InitSchema does. */
  lemma InitSchemaReplacesAll<S(!new)>(db: Db<S>, faults: Faults, ms: seq<Migration<S>>, init: S -> Effect<S>)
    requires Distinct(ms) && db.recorded == {} && CreateTable(db, faults).1 == Ok && !faults(CreateTable(db, faults).0.sent)
    ensures
      var (after, r) := Migrated(db, faults, ms, Some(init));
      && after.schema == init(db.schema).schema
      && (!init(db.schema).ok ==> r == Failed && after.recorded == {})
      && (r == Ok ==> Recorded(after, ms, |ms|))
      && (init(db.schema).ok && (forall t :: t >= db.sent ==> !faults(t)) ==> r == Ok)
  {
    var asked := Sent(CreateTable(db, faults).0);
    var start := asked.(schema := init(db.schema).schema);
    assert ms[0..] == ms && Ids(ms, 0) == {};
    InsertAllIs(start, faults, ms, 0);
  }

  /** With anything recorded it is not asked. */
  lemma InitSchemaOnlyOnce<S>(db: Db<S>, faults: Faults, ms: seq<Migration<S>>, init: S -> Effect<S>)
    requires db.recorded != {}
    ensures Migrated(db, faults, ms, Some(init)) == Migrated(db, faults, ms, None)
  {}

  // ----- which error -----

  /** Migrate stops at the first migration without an id that it reaches, before it is run, and only
      there with this error. */
  lemma {:induction false} MissingIdStops<S>(db: Db<S>, faults: Faults, ms: seq<Migration<S>>)
    ensures
      RunAll(db, faults, ms).1 == MissingID <==>
        exists i: nat :: i < |ms| && ms[i].id == "" && RunAll(db, faults, ms[..i]).1 == Ok
    ensures
      forall i: nat :: i < |ms| && ms[i].id == "" && RunAll(db, faults, ms[..i]).1 == Ok ==>
        RunAll(db, faults, ms) == (RunAll(db, faults, ms[..i]).0, MissingID)
    decreases |ms|
  {
    if ms != [] {
      var (next, r) := RunMigration(db, faults, ms[0]);
      var rest := ms[1..];
      assert RunAll(db, faults, ms[..0]) == (db, Ok);
      if r == Ok { MissingIdStops(next, faults, rest); }
      forall i: nat | i < |rest| ensures RunAll(db, faults, ms[..i + 1]) == if r == Ok then RunAll(next, faults, rest[..i]) else (next, r) {
        assert ms[..i + 1][1..] == rest[..i] && ms[..i + 1][0] == ms[0];
      }
      forall i: nat | i < |ms| && ms[i].id == "" && RunAll(db, faults, ms[..i]).1 == Ok
        ensures RunAll(db, faults, ms) == (RunAll(db, faults, ms[..i]).0, MissingID)
      {
        if i > 0 { assert rest[i - 1] == ms[i] && ms[..(i - 1) + 1] == ms[..i]; }
      }
      if RunAll(db, faults, ms).1 == MissingID && r == Ok {
        var i: nat :| i < |rest| && rest[i].id == "" && RunAll(next, faults, rest[..i]).1 == Ok;
        assert ms[i + 1].id == "" && RunAll(db, faults, ms[..i + 1]).1 == Ok;
      }
    }
  }

  /** Whatever then fails, the rollback function of the last recorded migration has run, and its id
      goes exactly if all succeeds. */
  lemma RollbackRuns<S>(db: Db<S>, faults: Faults, ms: seq<Migration<S>>)
    requires LastRun(db, faults, ms).2.Some? && LastRun(db, faults, ms).2.value.down.Some?
    ensures
      var m := LastRun(db, faults, ms).2.value;
      var (after, r) := RolledBackLast(db, faults, ms);
      && after.schema == m.down.value(db.schema).schema
      && after.recorded == (if r == Ok then db.recorded - {m.id} else db.recorded) && (r == Ok || r == Failed)
  {
    assert ms[..|ms|] == ms;
    var i := LastRunFinds(db, faults, ms, |ms|);
  }

  predicate LastRecorded<S>(db: Db<S>, ms: seq<Migration<S>>, i: nat)
    requires i < |ms|
  {
    ms[i].id in db.recorded && forall x :: i < x < |ms| ==> ms[x].id !in db.recorded
  }

  /** RollbackLast tells an empty list, a table without any of the ids, and a migration that cannot be
      rolled back apart; in these three cases nothing changes. */
  lemma RollbackOutcomes<S>(db: Db<S>, faults: Faults, ms: seq<Migration<S>>)
    ensures
      var (after, r) := RolledBackLast(db, faults, ms);
      && (r == NoMigrationDefined <==> ms == [])
      && (r == NoRunnedMigration ==> forall i :: 0 <= i < |ms| ==> ms[i].id !in db.recorded)
      && (ms != [] && Reliable(db, faults) && (forall i :: 0 <= i < |ms| ==> ms[i].id !in db.recorded) ==> r == NoRunnedMigration)
      && (r == RollbackImpossible ==> exists i: nat :: i < |ms| && LastRecorded(db, ms, i) && ms[i].down.None?)
      && (r == NoMigrationDefined || r == NoRunnedMigration || r == RollbackImpossible ==>
            after.schema == db.schema && after.recorded == db.recorded)
      && r != MissingID
  {
    assert ms[..|ms|] == ms;
    var i := LastRunFinds(db, faults, ms, |ms|);
    var last := LastRun(db, faults, ms).2;
    if last.Some? { assert LastRecorded(db, ms, i) && ms[i].id in db.recorded; }
  }
}
