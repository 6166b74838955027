/** When the deferred closures run, and how often. */
module TxClosures {
  import opened Utils
  import opened Values
  import opened TxSpec

  // ----- counting -----

  /** One closure on one bean, after one kind of write. */
  datatype Job = Job(kind: Kind, bean: Bean, closure: nat)

  function Ran(log: seq<Event>, x: Job): nat { multiset(log)[Call(x.kind, x.bean, Act.Run(x.closure))] }

  function Waiting(d: Deferred, x: Job): nat { multiset(Closures(d.Of(x.kind), x.bean))[x.closure] }

  /** How often a successful write hands the closure over for the bean. */
  function HandedOver(beans: seq<Bean>, closures: seq<nat>, b: Bean, c: nat): nat {
    if beans == [] then 0
    else (if beans[0] == b then multiset(closures)[c] else 0) + HandedOver(beans[1..], closures, b, c)
  }

  function Handed(s: State, op: Op, x: Job): nat {
    if op.Write? && op.driverOk && op.kind == x.kind then HandedOver(op.beans, Handing(s, op.stamp), x.bean, x.closure) else 0
  }

  /** A write without closures of a bean with a hook puts a nil entry in the map, and whatever
      was waiting there is lost. */
  function Lost(s: State, op: Op, x: Job): nat {
    if op.Write? && op.driverOk && !s.isAutoCommit && op.kind == x.kind
      && Handing(s, op.stamp) == [] && x.bean in op.beans && op.kind in x.bean.hooks
    then Waiting(s.deferred, x) else 0
  }

  lemma {:induction false} RunsCount(kind: Kind, bean: Bean, closures: seq<nat>, x: Job)
    ensures Ran(Runs(kind, bean, closures), x) == if kind == x.kind && bean == x.bean then multiset(closures)[x.closure] else 0
    decreases |closures|
  {
    if closures != [] {
      RunsCount(kind, bean, closures[1..], x);
      assert closures == [closures[0]] + closures[1..];
    }
  }

  lemma BeanCallsCount(kind: Kind, bean: Bean, closures: seq<nat>, x: Job)
    ensures Ran(BeanCalls(kind, bean, closures), x) == if kind == x.kind && bean == x.bean then multiset(closures)[x.closure] else 0
  {
    RunsCount(kind, bean, closures, x);
  }

  lemma {:induction false} CallsNowCount(kind: Kind, beans: seq<Bean>, closures: seq<nat>, x: Job)
    ensures Ran(CallsNow(kind, beans, closures), x) ==
            if kind == x.kind then HandedOver(beans, closures, x.bean, x.closure) else 0
    decreases |beans|
  {
    if beans != [] {
      BeanCallsCount(kind, beans[0], closures, x);
      CallsNowCount(kind, beans[1..], closures, x);
    }
  }

  lemma {:induction false} CallsCount(kind: Kind, p: Pending, order: seq<Bean>, x: Job)
    requires forall i, j :: 0 <= i < j < |order| ==> order[i] != order[j]
    ensures Ran(Calls(kind, p, order), x) ==
            if kind == x.kind && x.bean in order then multiset(Closures(p, x.bean))[x.closure] else 0
    decreases |order|
  {
    if order != [] {
      BeanCallsCount(kind, order[0], Closures(p, order[0]), x);
      CallsCount(kind, p, order[1..], x);
    }
  }

  /** Commit runs exactly what is waiting, in whatever order it walks the maps. */
  lemma AllCallsCount(d: Deferred, o: Order, x: Job)
    requires GoodOrder(o, d)
    ensures Ran(AllCalls(d, o), x) == Waiting(d, x)
  {
    CallsCount(Insert, d.inserts, o.inserts, x);
    CallsCount(Update, d.updates, o.updates, x);
    CallsCount(Delete, d.deletes, o.deletes, x);
  }

  lemma {:induction false} NoteAllCount(p: Pending, kind: Kind, beans: seq<Bean>, closures: seq<nat>, b: Bean, c: nat)
    ensures
      var before, after := multiset(Closures(p, b))[c], multiset(Closures(NoteAll(p, kind, beans, closures), b))[c];
      after == if closures == [] && b in beans && kind in b.hooks then 0
               else before + HandedOver(beans, closures, b, c)
    decreases |beans|
  {
    if beans != [] {
      var q := Note(p, kind, beans[0], closures);
      NoteCount(p, kind, beans[0], closures, b, c);
      NothingHanded(beans[1..], b, c);
      hide Note, Closures;
      NoteAllCount(q, kind, beans[1..], closures, b, c);
    }
  }

  lemma NoteCount(p: Pending, kind: Kind, bean: Bean, closures: seq<nat>, b: Bean, c: nat)
    ensures multiset(Closures(Note(p, kind, bean, closures), b))[c] ==
            if b != bean then multiset(Closures(p, b))[c]
            else if closures == [] && kind in b.hooks then 0
            else multiset(Closures(p, b))[c] + multiset(closures)[c]
  {
    var q := Note(p, kind, bean, closures);
    if b != bean { assert Closures(q, b) == Closures(p, b); }
    else if closures != [] { assert Closures(q, b) == Closures(p, b) + closures; }
  }

  lemma {:induction false} NothingHanded(beans: seq<Bean>, b: Bean, c: nat)
    ensures HandedOver(beans, [], b, c) == 0
    decreases |beans|
  {
    if beans != [] { NothingHanded(beans[1..], b, c); }
  }

  // ----- conservation -----

  function Tally(s: State, x: Job): nat { Ran(s.log, x) + Waiting(s.deferred, x) }

  /** What was handed over has run, is waiting, or was lost. */
  lemma StepConserves(s: State, op: Op, x: Job)
    requires Flags(s) && GoodStep(s, op)
    ensures Tally(Step(s, op), x) + Lost(s, op, x) == Tally(s, x) + Handed(s, op, x)
  {
    hide Ran, Waiting, GoodOrder, AllCalls;
    match op
    case Begin(ok) => NotARun(s.log, Opened(s.begun), x);
    case Rollback(ok) => if Live(s) { NotARun(s.log, RolledBack(s.tx.value, ok), x); }
    case Close(_, ok) => if Live(s) { NotARun(s.log, RolledBack(s.tx.value, ok), x); }
    case After =>
    case RawExec(_) =>
    case Commit(ok, o) => if Live(s) { CommitRuns(s, ok, o, x); }
    case Write(kind, beans, stamp, ok) => WriteConserves(s, kind, beans, stamp, ok, x);
  }

  lemma NotARun(log: seq<Event>, e: Event, x: Job)
    requires !e.Call?
    ensures Ran(log + [e], x) == Ran(log, x)
  {}

  lemma RanConcat(a: seq<Event>, b: seq<Event>, x: Job)
    ensures Ran(a + b, x) == Ran(a, x) + Ran(b, x)
  {}

  lemma CommitRuns(s: State, ok: bool, o: Order, x: Job)
    requires Flags(s) && Live(s) && (ok ==> GoodOrder(o, s.deferred))
    ensures
      var t := DoCommit(s, ok, o);
      if ok then Ran(t.log, x) == Ran(s.log, x) + Waiting(s.deferred, x) && Waiting(t.deferred, x) == 0
      else Ran(t.log, x) == Ran(s.log, x) && t.deferred == s.deferred
  {
    hide GoodOrder, AllCalls;
    NotARun(s.log, Committed(s.tx.value, ok), x);
    if ok {
      AllCallsCount(s.deferred, o, x);
      RanConcat(s.log + [Committed(s.tx.value, ok)], AllCalls(s.deferred, o), x);
      NoneWaits(x);
    }
  }

  lemma NoneWaits(x: Job)
    ensures Waiting(Nothing, x) == 0
  {}

  lemma WriteConserves(s: State, kind: Kind, beans: seq<Bean>, stamp: bool, ok: bool, x: Job)
    ensures
      var op := Write(kind, beans, stamp, ok);
      Tally(DoWrite(s, kind, beans, stamp, ok), x) + Lost(s, op, x) == Tally(s, x) + Handed(s, op, x)
  {
    var cs := Handing(s, stamp);
    if s.isAutoCommit {
      CallsNowCount(kind, beans, cs, x);
    } else if kind == x.kind {
      NoteAllCount(s.deferred.Of(kind), kind, beans, cs, x.bean, x.closure);
      if cs == [] { NothingHanded(beans, x.bean, x.closure); }
    }
  }

  /** A closure runs only in a Commit whose driver call succeeded, and then only if it was
      waiting, or at once in a write outside a transaction that hands it over. */
  lemma RunsOnlyWhen(s: State, op: Op, x: Job)
    requires Flags(s) && GoodStep(s, op)
    ensures
      Ran(Step(s, op).log, x) - Ran(s.log, x) ==
      (if op.Commit? && op.driverOk && Live(s) then Waiting(s.deferred, x)
       else if op.Write? && s.isAutoCommit then Handed(s, op, x)
       else 0)
  {
    hide Ran, Waiting, GoodOrder, AllCalls;
    match op
    case Begin(_) => NotARun(s.log, Opened(s.begun), x);
    case Rollback(ok) => if Live(s) { NotARun(s.log, RolledBack(s.tx.value, ok), x); }
    case Close(_, ok) => if Live(s) { NotARun(s.log, RolledBack(s.tx.value, ok), x); }
    case After =>
    case RawExec(_) =>
    case Commit(ok, o) => if Live(s) { CommitRuns(s, ok, o, x); }
    case Write(kind, beans, stamp, ok) =>
      if s.isAutoCommit {
        CallsNowCount(kind, beans, Handing(s, stamp), x);
        RanConcat(s.log, CallsNow(kind, beans, Handing(s, stamp)), x);
      }
  }

  function HandedInAll(s: State, ops: seq<Op>, x: Job): nat
    requires Flags(s)
    decreases |ops|
  {
    if ops == [] then 0 else Handed(s, ops[0], x) + HandedInAll(Step(s, ops[0]), ops[1..], x)
  }

  function LostInAll(s: State, ops: seq<Op>, x: Job): nat
    requires Flags(s)
    decreases |ops|
  {
    if ops == [] then 0 else Lost(s, ops[0], x) + LostInAll(Step(s, ops[0]), ops[1..], x)
  }

  lemma {:induction false} RunConserves(s: State, ops: seq<Op>, x: Job)
    requires Flags(s) && Possible(s, ops)
    ensures Tally(Execute(s, ops), x) + LostInAll(s, ops, x) == Tally(s, x) + HandedInAll(s, ops, x)
    decreases |ops|
  {
    if ops != [] {
      StepConserves(s, ops[0], x);
      RunConserves(Step(s, ops[0]), ops[1..], x);
    }
  }

  // ----- at most once -----

  predicate NoRepeats<T(==)>(q: seq<T>) { forall i, j :: 0 <= i < j < |q| ==> q[i] != q[j] }

  /** Closures not yet handed over are new, and nothing has been handed over twice. */
  ghost predicate Single(s: State) {
    && NoRepeats(s.afterClosures)
    && (forall c :: c in s.afterClosures ==> c < s.made)
    && (forall x: Job :: Tally(s, x) <= 1)
    && (forall x: Job :: x.closure in s.afterClosures || x.closure >= s.made ==> Tally(s, x) == 0)
  }

  /** No write names the same bean twice. */
  predicate DistinctBeans(op: Op) { op.Write? ==> NoRepeats(op.beans) }

  lemma {:induction false} CountNoRepeats<T>(q: seq<T>, t: T)
    requires NoRepeats(q)
    ensures multiset(q)[t] == if t in q then 1 else 0
    decreases |q|
  {
    if q != [] {
      CountNoRepeats(q[1..], t);
      assert q == [q[0]] + q[1..];
    }
  }

  lemma {:induction false} HandedAtMostOnce(beans: seq<Bean>, closures: seq<nat>, b: Bean, c: nat)
    requires NoRepeats(beans) && NoRepeats(closures)
    ensures HandedOver(beans, closures, b, c) == if b in beans && c in closures then 1 else 0
    decreases |beans|
  {
    if beans != [] {
      CountNoRepeats(closures, c);
      HandedAtMostOnce(beans[1..], closures, b, c);
    }
  }

  lemma AppendNew<T>(q: seq<T>, t: T)
    requires NoRepeats(q) && t !in q
    ensures NoRepeats(q + [t])
  {
    assert forall i :: 0 <= i < |q| ==> q[i] in q;
  }

  lemma StepSingle(s: State, op: Op)
    requires Flags(s) && GoodStep(s, op) && DistinctBeans(op) && Single(s)
    ensures Single(Step(s, op))
  {
    hide Tally, GoodStep, Lost, Handed;
    var t := Step(s, op);
    AppendNew(s.afterClosures, s.made);
    forall x: Job
      ensures Tally(t, x) <= 1
      ensures x.closure in t.afterClosures || x.closure >= t.made ==> Tally(t, x) == 0
    {
      StepConserves(s, op, x);
      assert Tally(s, x) <= 1;
      HandedOnce(s, op, x);
    }
  }

  lemma HandedOnce(s: State, op: Op, x: Job)
    requires DistinctBeans(op) && (op.Write? ==> NoRepeats(Handing(s, op.stamp)))
    ensures Handed(s, op, x) <= 1
    ensures Handed(s, op, x) > 0 ==> op.Write? && x.closure in Handing(s, op.stamp)
  {
    if op.Write? && op.driverOk { HandedAtMostOnce(op.beans, Handing(s, op.stamp), x.bean, x.closure); }
  }

  lemma {:induction false} RunSingle(s: State, ops: seq<Op>)
    requires Flags(s) && Possible(s, ops) && Single(s) && forall i :: 0 <= i < |ops| ==> DistinctBeans(ops[i])
    ensures Single(Execute(s, ops))
    decreases |ops|
  {
    if ops != [] {
      StepSingle(s, ops[0]);
      RunSingle(Step(s, ops[0]), ops[1..]);
    }
  }

  /** Over any run, a registered closure runs at most once for each bean of its write. */
  lemma RunsAtMostOnce(ops: seq<Op>, x: Job)
    requires Possible(NewSession, ops) && forall i :: 0 <= i < |ops| ==> DistinctBeans(ops[i])
    ensures Ran(Execute(NewSession, ops).log, x) <= 1
  {
    RunSingle(NewSession, ops);
    assert Tally(Execute(NewSession, ops), x) <= 1;
  }

  // ----- Commit runs exactly what was registered since Begin -----

  /** The write would put a nil entry over closures that wait. */
  ghost predicate Drops(s: State, op: Op) {
    && op.Write? && op.driverOk && !s.isAutoCommit && Handing(s, op.stamp) == []
    && exists b :: b in op.beans && op.kind in b.hooks && Closures(s.deferred.Of(op.kind), b) != []
  }

  ghost predicate Careful(s: State, ops: seq<Op>)
    requires Flags(s)
    decreases |ops|
  {
    ops == [] || (!Drops(s, ops[0]) && Careful(Step(s, ops[0]), ops[1..]))
  }

  lemma {:induction false} CarefulLosesNone(s: State, ops: seq<Op>, x: Job)
    requires Flags(s) && Careful(s, ops)
    ensures LostInAll(s, ops, x) == 0
    decreases |ops|
  {
    if ops != [] { CarefulLosesNone(Step(s, ops[0]), ops[1..], x); }
  }

  lemma {:induction false} CarelessLoses(s: State, ops: seq<Op>) returns (x: Job)
    requires Flags(s) && !Careful(s, ops)
    ensures LostInAll(s, ops, x) > 0
    decreases |ops|
  {
    var op := ops[0];
    if Drops(s, op) {
      var b :| b in op.beans && op.kind in b.hooks && Closures(s.deferred.Of(op.kind), b) != [];
      var cs := Closures(s.deferred.Of(op.kind), b);
      assert cs[0] in multiset(cs);
      x := Job(op.kind, b, cs[0]);
    } else {
      x := CarelessLoses(Step(s, op), ops[1..]);
    }
  }

  /** A call that does not end a transaction. */
  predicate Inside(op: Op) { op.After? || op.RawExec? || op.Write? || op.Begin? }

  lemma {:induction false} InsideKeepsLive(s: State, ops: seq<Op>, x: Job)
    requires Flags(s) && Live(s) && forall i :: 0 <= i < |ops| ==> Inside(ops[i])
    ensures Live(Execute(s, ops)) && Possible(s, ops) && Execute(s, ops).log == s.log
    decreases |ops|
  {
    if ops != [] { InsideKeepsLive(Step(s, ops[0]), ops[1..], x); }
  }

  /** In a session with nothing waiting: Begin, any writes, Commit. Every closure handed over
      since Begin has run by then, and nothing more, exactly when no write dropped any. */
  lemma CommitRunsAllIff(s: State, body: seq<Op>, o: Order)
    requires Flags(s) && s.isAutoCommit && s.deferred == Nothing
    requires forall i :: 0 <= i < |body| ==> Inside(body[i])
    requires GoodOrder(o, Execute(DoBegin(s, true), body).deferred)
    ensures
      var begun := DoBegin(s, true);
      var done := DoCommit(Execute(begun, body), true, o);
      && done.deferred == Nothing
      && (Careful(begun, body) <==>
          forall x: Job :: Ran(done.log, x) == Ran(s.log, x) + HandedInAll(begun, body, x))
  {
    hide Execute, HandedInAll, LostInAll, Possible, Careful, GoodOrder, Ran, DoCommit, Inside;
    var begun := DoBegin(s, true);
    if Careful(begun, body) {
      forall x: Job
        ensures Ran(DoCommit(Execute(begun, body), true, o).log, x) == Ran(s.log, x) + HandedInAll(begun, body, x)
      {
        CommitRunsRest(s, body, o, x);
        CarefulLosesNone(begun, body, x);
      }
    } else {
      var x := CarelessLoses(begun, body);
      CommitRunsRest(s, body, o, x);
    }
    CommitRunsRest(s, body, o, Job(Insert, TxSpec.Bean.Bean(0, {}), 0));
  }

  lemma CommitRunsRest(s: State, body: seq<Op>, o: Order, x: Job)
    requires Flags(s) && s.isAutoCommit && s.deferred == Nothing
    requires forall i :: 0 <= i < |body| ==> Inside(body[i])
    requires GoodOrder(o, Execute(DoBegin(s, true), body).deferred)
    ensures
      var begun := DoBegin(s, true);
      var done := DoCommit(Execute(begun, body), true, o);
      && done.deferred == Nothing
      && Ran(done.log, x) + LostInAll(begun, body, x) == Ran(s.log, x) + HandedInAll(begun, body, x)
  {
    var begun := DoBegin(s, true);
    hide Execute, HandedInAll, LostInAll, Possible, GoodOrder, AllCalls, Inside;
    InsideKeepsLive(begun, body, x);
    RunConserves(begun, body, x);
    hide Ran;
    RunsOnlyWhen(Execute(begun, body), Commit(true, o), x);
  }

  /** All ends so far were successful commits. */
  predicate AllCommitted(log: seq<Event>) {
    forall i :: 0 <= i < |log| ==> !log[i].RolledBack? && (log[i].Committed? ==> log[i].ok)
  }

  lemma LogGrows(s: State, op: Op)
    requires Flags(s)
    ensures s.log <= Step(s, op).log
  {}

  /** As long as every transaction was committed, nothing waits outside a transaction. */
  lemma {:induction false} NothingWaits(s: State, ops: seq<Op>)
    requires Flags(s) && (s.isAutoCommit && AllCommitted(s.log) ==> s.deferred == Nothing)
    ensures
      var t := Execute(s, ops);
      t.isAutoCommit && AllCommitted(t.log) ==> t.deferred == Nothing
    decreases |ops|
  {
    if ops != [] {
      var t := Step(s, ops[0]);
      StepNothingWaits(s, ops[0]);
      NothingWaits(t, ops[1..]);
    }
  }

  lemma StepNothingWaits(s: State, op: Op)
    requires Flags(s) && (s.isAutoCommit && AllCommitted(s.log) ==> s.deferred == Nothing)
    ensures
      var t := Step(s, op);
      t.isAutoCommit && AllCommitted(t.log) ==> t.deferred == Nothing
  {
    var t := Step(s, op);
    LogGrows(s, op);
    var n := |s.log|;
    if AllCommitted(t.log) {
      assert AllCommitted(s.log) by {
        assert forall i :: 0 <= i < n ==> s.log[i] == t.log[i];
      }
      if |t.log| > n { assert !t.log[n].RolledBack? && (t.log[n].Committed? ==> t.log[n].ok); }
    }
  }

  /** Rollback keeps what waits, and the next successful Commit runs it. */
  lemma RolledBackClosuresRun(s: State, driverOk: bool, o: Order, x: Job)
    requires Flags(s) && Live(s) && GoodOrder(o, s.deferred)
    ensures
      var next := DoBegin(DoRollback(s, driverOk), true);
      Ran(DoCommit(next, true, o).log, x) == Ran(s.log, x) + Waiting(s.deferred, x)
  {
    hide Ran, Waiting, GoodOrder, AllCalls;
    var t := DoRollback(s, driverOk);
    NotARun(s.log, RolledBack(s.tx.value, driverOk), x);
    NotARun(t.log, Opened(t.begun), x);
    CommitRuns(DoBegin(t, true), true, o, x);
  }

  /** The same after a Commit that the driver refused. */
  lemma RefusedClosuresRun(s: State, refused: Order, o: Order, x: Job)
    requires Flags(s) && Live(s) && GoodOrder(o, s.deferred)
    ensures
      var next := DoBegin(DoCommit(s, false, refused), true);
      Ran(DoCommit(next, true, o).log, x) == Ran(s.log, x) + Waiting(s.deferred, x)
  {
    hide Ran, Waiting, GoodOrder, AllCalls;
    var t := DoCommit(s, false, refused);
    CommitRuns(s, false, refused, x);
    NotARun(t.log, Opened(t.begun), x);
    CommitRuns(DoBegin(t, true), true, o, x);
  }

  // ----- an insert whose id must be queried (Oracle, Dameng) -----

  /** In auto-commit the insert is wrapped in its own transaction; when the insert or the query
      for the new id fails, it returns without ending it. */
  function OracleInsert(s: State, b: Bean, beginOk: bool, execOk: bool, queryOk: bool, commitOk: bool, idKnown: bool,
                        o: Order): State
    requires Flags(s)
  {
    var quit := s.(afterClosures := []);
    if s.isAutoCommit && !beginOk then quit
    else
      var begun := if s.isAutoCommit then DoBegin(s, true) else s;
      if !execOk || !queryOk then begun.(afterClosures := [])
      else if s.isAutoCommit then
        var ended := DoCommit(begun, commitOk, o);
        if commitOk && idKnown then DoWrite(ended, Insert, [b], false, true) else ended.(afterClosures := [])
      else DoWrite(begun, Insert, [b], false, idKnown)
  }

  /** It leaves the session as it found it, in or out of a transaction, exactly unless its own
      Begin succeeded and the insert or the query failed. */
  lemma OracleInsertKeepsModeIff(s: State, b: Bean, beginOk: bool, execOk: bool, queryOk: bool, commitOk: bool,
                                 idKnown: bool, o: Order)
    requires Sound(s)
    ensures
      var t := OracleInsert(s, b, beginOk, execOk, queryOk, commitOk, idKnown, o);
      && Sound(t)
      && (t.isAutoCommit == s.isAutoCommit <==> !(s.isAutoCommit && beginOk && (!execOk || !queryOk)))
  {
    StepSound(s, Begin(true));
    var begun := if s.isAutoCommit then DoBegin(s, true) else s;
    if execOk && queryOk && s.isAutoCommit && beginOk {
      StepSound(begun, Commit(commitOk, o));
      StepSound(DoCommit(begun, commitOk, o), Write(Insert, [b], false, true));
    } else if execOk && queryOk && !s.isAutoCommit {
      StepSound(s, Write(Insert, [b], false, idKnown));
    }
  }
}
