/** A session's transactions as a state machine, with a log of what the driver sees. */
module TxSpec {
  import opened Utils
  import opened Values

  datatype Kind = Insert | Update | Delete

  /** A bean is known by its address and by the After... interfaces its type implements. */
  datatype Bean = Bean(id: nat, hooks: set<Kind>)

  datatype Act = Run(closure: nat) | Hook

  datatype Event =
    | Opened(tx: nat)
    | Committed(tx: nat, ok: bool)
    | RolledBack(tx: nat, ok: bool)
    | Call(kind: Kind, bean: Bean, act: Act)

  /** One of the maps afterInsertBeans, afterUpdateBeans, afterDeleteBeans; a nil entry only
      remembers the bean. */
  type Pending = map<Bean, Option<seq<nat>>>

  datatype Deferred = Deferred(inserts: Pending, updates: Pending, deletes: Pending) {
    function Of(kind: Kind): Pending {
      match kind case Insert => inserts case Update => updates case Delete => deletes
    }
    function With(kind: Kind, p: Pending): Deferred {
      match kind case Insert => this.(inserts := p) case Update => this.(updates := p) case Delete => this.(deletes := p)
    }
  }

  const Nothing := Deferred(map[], map[], map[])

  /** `begun` counts the transactions, `made` the closures; closures are numbered as they are
      made, so that equal numbers mean the same registration. */
  datatype State = State(
    isAutoCommit: bool,
    isCommitedOrRollbacked: bool,
    tx: Option<nat>,
    isClosed: bool,
    deferred: Deferred,
    afterClosures: seq<nat>,
    begun: nat,
    made: nat,
    log: seq<Event>)

  const NewSession := State(true, false, None, false, Nothing, [], 0, 0, [])

  /** The order in which Commit happens to walk the three maps. */
  datatype Order = Order(inserts: seq<Bean>, updates: seq<Bean>, deletes: seq<Bean>)

  /** Calls on a session; the booleans say whether the driver obliges. */
  datatype Op =
    | Begin(driverOk: bool)
    | Rollback(driverOk: bool)
    | Commit(driverOk: bool, order: Order)
    | Close(stmtsOk: bool, driverOk: bool)
    | After
    | RawExec(driverOk: bool)
    | Write(kind: Kind, beans: seq<Bean>, stamp: bool, driverOk: bool)

  /** A transaction has been begun and not ended. */
  predicate Live(s: State) { !s.isAutoCommit && !s.isCommitedOrRollbacked }

  /** Out of auto-commit exactly while a transaction is held and unfinished. */
  predicate Flags(s: State) { !s.isAutoCommit <==> s.tx.Some? && !s.isCommitedOrRollbacked }

  function DoBegin(s: State, driverOk: bool): State {
    if s.isAutoCommit && driverOk then
      s.(isAutoCommit := false, isCommitedOrRollbacked := false, tx := Some(s.begun),
         begun := s.begun + 1, log := s.log + [Opened(s.begun)])
    else s
  }

  function DoRollback(s: State, driverOk: bool): State
    requires Flags(s)
  {
    if Live(s) then
      s.(isCommitedOrRollbacked := true, isAutoCommit := true, log := s.log + [RolledBack(s.tx.value, driverOk)])
    else s
  }

  function Runs(kind: Kind, bean: Bean, closures: seq<nat>): seq<Event> {
    if closures == [] then [] else [Call(kind, bean, Act.Run(closures[0]))] + Runs(kind, bean, closures[1..])
  }

  /** A bean's closures, then its hook. */
  function BeanCalls(kind: Kind, bean: Bean, closures: seq<nat>): seq<Event> {
    Runs(kind, bean, closures) + (if kind in bean.hooks then [Call(kind, bean, Hook)] else [])
  }

  function Closures(p: Pending, b: Bean): seq<nat> {
    if b in p && p[b].Some? then p[b].value else []
  }

  function Calls(kind: Kind, p: Pending, order: seq<Bean>): seq<Event> {
    if order == [] then [] else BeanCalls(kind, order[0], Closures(p, order[0])) + Calls(kind, p, order[1..])
  }

  function AllCalls(d: Deferred, o: Order): seq<Event> {
    Calls(Insert, d.inserts, o.inserts) + Calls(Update, d.updates, o.updates) + Calls(Delete, d.deletes, o.deletes)
  }

  function DoCommit(s: State, driverOk: bool, o: Order): State
    requires Flags(s)
  {
    if Live(s) then
      var ended := s.(isCommitedOrRollbacked := true, isAutoCommit := true,
                      log := s.log + [Committed(s.tx.value, driverOk)]);
      if driverOk then ended.(log := ended.log + AllCalls(s.deferred, o), deferred := Nothing) else ended
    else s
  }

  function DoClose(s: State, stmtsOk: bool, driverOk: bool): State
    requires Flags(s)
  {
    if s.isClosed || !stmtsOk then s
    else if s.tx.Some? && !s.isCommitedOrRollbacked && !driverOk then DoRollback(s, false)
    else
      var rolled := if s.tx.Some? && !s.isCommitedOrRollbacked then DoRollback(s, driverOk) else s;
      rolled.(tx := None, isClosed := true)
  }

  /** What a successful write inside a transaction leaves in its map. */
  function Note(p: Pending, kind: Kind, b: Bean, closures: seq<nat>): Pending {
    if closures != [] then
      if b in p && p[b].Some? then p[b := Some(p[b].value + closures)] else p[b := Some(closures)]
    else if kind in b.hooks then p[b := None]
    else p
  }

  function NoteAll(p: Pending, kind: Kind, beans: seq<Bean>, closures: seq<nat>): Pending
    decreases |beans|
  {
    if beans == [] then p else NoteAll(Note(p, kind, beans[0], closures), kind, beans[1..], closures)
  }

  /** Outside a transaction the closures run at once. */
  function CallsNow(kind: Kind, beans: seq<Bean>, closures: seq<nat>): seq<Event> {
    if beans == [] then [] else BeanCalls(kind, beans[0], closures) + CallsNow(kind, beans[1..], closures)
  }

  /** The closures a write hands over: those given to After, and for a soft delete the one
      that stamps the bean. */
  function Handing(s: State, stamp: bool): seq<nat> {
    if stamp then s.afterClosures + [s.made] else s.afterClosures
  }

  function DoWrite(s: State, kind: Kind, beans: seq<Bean>, stamp: bool, driverOk: bool): State {
    var closures := Handing(s, stamp);
    var done := s.(afterClosures := [], made := if stamp then s.made + 1 else s.made);
    if !driverOk then done
    else if s.isAutoCommit then done.(log := s.log + CallsNow(kind, beans, closures))
    else done.(deferred := s.deferred.With(kind, NoteAll(s.deferred.Of(kind), kind, beans, closures)))
  }

  function Step(s: State, op: Op): (r: State)
    requires Flags(s)
    ensures Flags(r)
  {
    match op
    case Begin(ok) => DoBegin(s, ok)
    case Rollback(ok) => DoRollback(s, ok)
    case Commit(ok, o) => DoCommit(s, ok, o)
    case Close(stmtsOk, ok) => DoClose(s, stmtsOk, ok)
    case After => s.(afterClosures := s.afterClosures + [s.made], made := s.made + 1)
    case RawExec(ok) => if ok then s else s.(afterClosures := [])
    case Write(kind, beans, stamp, ok) => DoWrite(s, kind, beans, stamp, ok)
  }

  function Execute(s: State, ops: seq<Op>): (r: State)
    requires Flags(s)
    ensures Flags(r)
    decreases |ops|
  {
    if ops == [] then s else Execute(Step(s, ops[0]), ops[1..])
  }

  ghost predicate Enumerates(order: seq<Bean>, p: Pending) {
    && (forall b :: b in order <==> b in p)
    && (forall i, j :: 0 <= i < j < |order| ==> order[i] != order[j])
  }

  ghost predicate GoodOrder(o: Order, d: Deferred) {
    Enumerates(o.inserts, d.inserts) && Enumerates(o.updates, d.updates) && Enumerates(o.deletes, d.deletes)
  }

  /** A Commit that runs the closures walks the maps it finds. */
  ghost predicate GoodStep(s: State, op: Op) {
    op.Commit? && op.driverOk && Live(s) ==> GoodOrder(op.order, s.deferred)
  }

  ghost predicate Possible(s: State, ops: seq<Op>)
    requires Flags(s)
    decreases |ops|
  {
    ops == [] ||
    (GoodStep(s, ops[0]) && Possible(Step(s, ops[0]), ops[1..]))
  }

  lemma {:induction false} ExecuteConcat(s: State, a: seq<Op>, b: seq<Op>)
    requires Flags(s)
    ensures Execute(s, a + b) == Execute(Execute(s, a), b)
    decreases |a|
  {
    if a == [] {
      assert a + b == b;
    } else {
      assert (a + b)[0] == a[0] && (a + b)[1..] == a[1..] + b;
      ExecuteConcat(Step(s, a[0]), a[1..], b);
    }
  }

  // ----- the ledger: what a monitor of the driver would accept -----

  /** Transactions are numbered as they are begun, at most one is live, each is ended at most
      once and only while live, and no closure runs while one is live. */
  datatype Ledger = Ledger(begun: nat, live: Option<nat>) | Broken

  function Observe(l: Ledger, e: Event): Ledger {
    if l.Broken? then Broken
    else
      match e
      case Opened(t) => if l.live.None? && t == l.begun then Ledger(t + 1, Some(t)) else Broken
      case Committed(t, _) => if l.live == Some(t) then Ledger(l.begun, None) else Broken
      case RolledBack(t, _) => if l.live == Some(t) then Ledger(l.begun, None) else Broken
      case Call(_, _, _) => if l.live.None? then l else Broken
  }

  function Replay(log: seq<Event>): Ledger {
    if log == [] then Ledger(0, None) else Observe(Replay(log[..|log| - 1]), log[|log| - 1])
  }

  function LiveTx(s: State): Option<nat> { if s.isAutoCommit then None else s.tx }

  /** The log is one the monitor accepts, and the session knows what the monitor knows. */
  predicate Sound(s: State) { Flags(s) && Replay(s.log) == Ledger(s.begun, LiveTx(s)) }

  lemma ReplayOne(log: seq<Event>, e: Event)
    ensures Replay(log + [e]) == Observe(Replay(log), e)
  {
    assert (log + [e])[..|log|] == log;
  }

  predicate OnlyCalls(es: seq<Event>) { forall i :: 0 <= i < |es| ==> es[i].Call? }

  lemma {:induction false} ReplayCalls(log: seq<Event>, es: seq<Event>)
    requires OnlyCalls(es) && Replay(log).Ledger? && Replay(log).live.None?
    ensures Replay(log + es) == Replay(log)
    decreases |es|
  {
    if es == [] {
      assert log + es == log;
    } else {
      var n := |es| - 1;
      ReplayCalls(log, es[..n]);
      ReplayOne(log + es[..n], es[n]);
      assert log + es == log + es[..n] + [es[n]];
    }
  }

  lemma {:induction false} RunsOnly(kind: Kind, bean: Bean, closures: seq<nat>)
    ensures OnlyCalls(Runs(kind, bean, closures))
    decreases |closures|
  {
    if closures != [] { RunsOnly(kind, bean, closures[1..]); }
  }

  lemma BeanCallsOnly(kind: Kind, bean: Bean, closures: seq<nat>)
    ensures OnlyCalls(BeanCalls(kind, bean, closures))
  {
    RunsOnly(kind, bean, closures);
  }

  lemma {:induction false} CallsOnly(kind: Kind, p: Pending, order: seq<Bean>)
    ensures OnlyCalls(Calls(kind, p, order))
    decreases |order|
  {
    if order != [] {
      BeanCallsOnly(kind, order[0], Closures(p, order[0]));
      CallsOnly(kind, p, order[1..]);
    }
  }

  lemma {:induction false} CallsNowOnly(kind: Kind, beans: seq<Bean>, closures: seq<nat>)
    ensures OnlyCalls(CallsNow(kind, beans, closures))
    decreases |beans|
  {
    if beans != [] {
      BeanCallsOnly(kind, beans[0], closures);
      CallsNowOnly(kind, beans[1..], closures);
    }
  }

  lemma StepSound(s: State, op: Op)
    requires Sound(s)
    ensures Sound(Step(s, op))
  {
    match op
    case Begin(ok) =>
      ReplayOne(s.log, Opened(s.begun));
      hide Replay;
    case Rollback(ok) =>
      if Live(s) { ReplayOne(s.log, RolledBack(s.tx.value, ok)); }
      hide Replay;
    case Commit(ok, o) =>
      CommitReplay(s, ok, o);
      hide Replay, AllCalls;
    case Close(stmtsOk, ok) =>
      if Live(s) { ReplayOne(s.log, RolledBack(s.tx.value, ok)); }
      hide Replay;
    case After => hide Replay;
    case RawExec(ok) => hide Replay;
    case Write(kind, beans, stamp, ok) =>
      if s.isAutoCommit {
        CallsNowOnly(kind, beans, Handing(s, stamp));
        ReplayCalls(s.log, CallsNow(kind, beans, Handing(s, stamp)));
      }
      hide Replay, CallsNow, NoteAll;
  }

  lemma CommitReplay(s: State, ok: bool, o: Order)
    requires Sound(s)
    ensures Live(s) ==> Replay(DoCommit(s, ok, o).log) == Ledger(s.begun, None)
  {
    if Live(s) {
      var ended := Committed(s.tx.value, ok);
      ReplayOne(s.log, ended);
      AllCallsOnly(s.deferred, o);
      hide AllCalls;
      ReplayCalls(s.log + [ended], AllCalls(s.deferred, o));
      hide Replay;
    }
  }

  lemma AllCallsOnly(d: Deferred, o: Order)
    ensures OnlyCalls(AllCalls(d, o))
  {
    CallsOnly(Insert, d.inserts, o.inserts);
    CallsOnly(Update, d.updates, o.updates);
    CallsOnly(Delete, d.deletes, o.deletes);
    hide Calls;
  }

  /** In every reachable state, whatever fails: the flags agree with the transaction held, and
      the driver has seen a log that the monitor accepts. */
  lemma {:induction false} RunSound(s: State, ops: seq<Op>)
    requires Sound(s)
    ensures Sound(Execute(s, ops))
    decreases |ops|
  {
    if ops != [] {
      StepSound(s, ops[0]);
      RunSound(Step(s, ops[0]), ops[1..]);
    }
  }

  function Endings(log: seq<Event>, t: nat): nat {
    multiset(log)[Committed(t, true)] + multiset(log)[Committed(t, false)]
    + multiset(log)[RolledBack(t, true)] + multiset(log)[RolledBack(t, false)]
  }

  /** An accepted log opens each transaction once and ends each, but the live one, once. */
  lemma {:induction false} LedgerCounts(log: seq<Event>, t: nat)
    requires Replay(log).Ledger?
    ensures
      var l := Replay(log);
      && multiset(log)[Opened(t)] == (if t < l.begun then 1 else 0)
      && Endings(log, t) == (if t < l.begun && l.live != Some(t) then 1 else 0)
      && (l.live.Some? ==> l.live.value < l.begun)
    decreases |log|
  {
    if log != [] {
      var before, e := log[..|log| - 1], log[|log| - 1];
      assert log == before + [e];
      LedgerCounts(before, t);
      if Replay(before).live.Some? { LedgerCounts(before, Replay(before).live.value); }
    }
  }

  /** Over any run, each transaction is begun once and ended once, except the one still live. */
  lemma EachEndsOnce(ops: seq<Op>, t: nat)
    ensures
      var s := Execute(NewSession, ops);
      && multiset(s.log)[Opened(t)] == (if t < s.begun then 1 else 0)
      && Endings(s.log, t) == (if t < s.begun && LiveTx(s) != Some(t) then 1 else 0)
      && (!s.isAutoCommit ==> s.tx.Some? && s.tx.value < s.begun)
  {
    RunSound(NewSession, ops);
    LedgerCounts(Execute(NewSession, ops).log, t);
  }

  /** Nothing is left open after the run. */
  ghost predicate AllEnded(s: State) {
    forall t: nat :: t < s.begun ==> Endings(s.log, t) == 1
  }

  lemma AllEndedIff(ops: seq<Op>)
    ensures
      var s := Execute(NewSession, ops);
      AllEnded(s) <==> s.isAutoCommit
  {
    var s := Execute(NewSession, ops);
    forall t: nat ensures Endings(s.log, t) == (if t < s.begun && LiveTx(s) != Some(t) then 1 else 0) {
      EachEndsOnce(ops, t);
    }
    EachEndsOnce(ops, 0);
    if !s.isAutoCommit { EachEndsOnce(ops, s.tx.value); assert Endings(s.log, s.tx.value) == 0; }
  }

  lemma {:induction false} ExecuteLast(s: State, ops: seq<Op>, op: Op)
    requires Flags(s)
    ensures Execute(s, ops + [op]) == Step(Execute(s, ops), op)
  {
    ExecuteConcat(s, ops, [op]);
    assert [op][1..] == [];
  }

  /** A run that ends with Close has ended every transaction exactly when none was live before
      it, or the session was still open and its prepared statements closed without an error;
      the answer of the final Rollback does not matter. */
  lemma CloseEndsAllIff(ops: seq<Op>, stmtsOk: bool, driverOk: bool)
    ensures
      var s := Execute(NewSession, ops);
      AllEnded(Execute(NewSession, ops + [Close(stmtsOk, driverOk)])) <==>
        s.isAutoCommit || (stmtsOk && !s.isClosed)
  {
    ExecuteLast(NewSession, ops, Close(stmtsOk, driverOk));
    AllEndedIff(ops + [Close(stmtsOk, driverOk)]);
  }

  /** A session closes once: it stays closed, and as long as it has been closed with no Begin
      since, it is in auto-commit. */
  lemma {:induction false} ClosedStaysQuiet(s: State, ops: seq<Op>)
    requires Flags(s) && s.isClosed && s.isAutoCommit && forall i :: 0 <= i < |ops| ==> !ops[i].Begin?
    ensures Execute(s, ops).isClosed && Execute(s, ops).isAutoCommit
    decreases |ops|
  {
    if ops != [] { ClosedStaysQuiet(Step(s, ops[0]), ops[1..]); }
  }

  /** Once Close meets no error from the prepared statements and no Begin follows, every
      transaction of the session has been ended exactly once. */
  lemma EveryTxEnds(before: seq<Op>, driverOk: bool, later: seq<Op>)
    requires !Execute(NewSession, before).isClosed && forall i :: 0 <= i < |later| ==> !later[i].Begin?
    ensures AllEnded(Execute(NewSession, before + [Close(true, driverOk)] + later))
  {
    var upTo := before + [Close(true, driverOk)];
    ExecuteLast(NewSession, before, Close(true, driverOk));
    ExecuteConcat(NewSession, upTo, later);
    StaysAuto(Execute(NewSession, upTo), later);
    AllEndedIff(upTo + later);
  }

  lemma {:induction false} StaysAuto(s: State, ops: seq<Op>)
    requires Flags(s) && s.isAutoCommit && forall i :: 0 <= i < |ops| ==> !ops[i].Begin?
    ensures Execute(s, ops).isAutoCommit
    decreases |ops|
  {
    if ops != [] { StaysAuto(Step(s, ops[0]), ops[1..]); }
  }

  /** Once set, `tx` stays set until the session is closed; the end of the transaction does not
      matter. */
  lemma {:induction false} TxKept(s: State, ops: seq<Op>)
    requires Flags(s) && s.tx.Some? && forall i :: 0 <= i < |ops| ==> !ops[i].Close?
    ensures Execute(s, ops).tx.Some?
    decreases |ops|
  {
    if ops != [] { TxKept(Step(s, ops[0]), ops[1..]); }
  }

  /** Begin on a closed session opens a transaction that no Close will end. */
  lemma BeginAfterCloseLeaks()
    ensures !AllEnded(Execute(NewSession, [Close(true, true), Begin(true), Close(true, true)]))
  {
    var ops := [Close(true, true), Begin(true)];
    assert ops[1..] == [Begin(true)] && [Begin(true)][1..] == [];
    CloseEndsAllIff(ops, true, true);
    assert ops + [Close(true, true)] == [Close(true, true), Begin(true), Close(true, true)];
  }

  // ----- Engine.Transaction -----

  /** Begin, the body's calls, Commit unless the body failed, and the deferred Close. */
  function Transaction(beginOk: bool, body: seq<Op>, failed: bool, commit: Op, stmtsOk: bool, closeOk: bool): State {
    var live := DoBegin(NewSession, beginOk);
    if !beginOk then DoClose(live, stmtsOk, closeOk)
    else
      var used := Execute(live, body);
      DoClose(if failed then used else Step(used, commit), stmtsOk, closeOk)
  }

  /** Whatever the body does to its session: without an error from the body every transaction
      is ended; with one, exactly when the Close still acts or none is live. */
  lemma TransactionEndsAllIff(beginOk: bool, body: seq<Op>, failed: bool, commit: Op, stmtsOk: bool, closeOk: bool)
    requires commit.Commit?
    ensures
      var used := Execute(DoBegin(NewSession, beginOk), body);
      AllEnded(Transaction(beginOk, body, failed, commit, stmtsOk, closeOk)) <==>
        !beginOk || !failed || used.isAutoCommit || (stmtsOk && !used.isClosed)
  {
    var open := [Begin(beginOk)];
    assert open[1..] == [];
    if !beginOk {
      CloseEndsAllIff(open, stmtsOk, closeOk);
      ExecuteLast(NewSession, open, Close(stmtsOk, closeOk));
    } else {
      ExecuteConcat(NewSession, open, body);
      var ops := if failed then open + body else open + body + [commit];
      if !failed { ExecuteLast(NewSession, open + body, commit); }
      CloseEndsAllIff(ops, stmtsOk, closeOk);
      ExecuteLast(NewSession, ops, Close(stmtsOk, closeOk));
    }
  }
}
