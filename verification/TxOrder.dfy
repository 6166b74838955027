/** Which closures are handed over, in which order they run, and when hooks do. */
module TxOrder {
  import opened Utils
  import opened Values
  import opened TxSpec
  import opened TxClosures

  // ----- closures that wait for the next write, from the calls alone -----

  /** After makes a closure, and so does a soft delete. */
  predicate Makes(op: Op) { op.After? || (op.Write? && op.stamp) }

  function MadeBy(calls: seq<Op>): nat {
    if calls == [] then 0 else MadeBy(calls[..|calls| - 1]) + if Makes(calls[|calls| - 1]) then 1 else 0
  }

  /** Any write takes the closures, successful or not, and a failing statement drops them. */
  predicate Takes(op: Op) { op.Write? || (op.RawExec? && !op.driverOk) }

  /** Closure `c` was given to After by a call with none behind it that takes it. */
  predicate Awaits(calls: seq<Op>, c: nat) {
    exists i: nat :: i < |calls| && AwaitsAt(calls, c, i)
  }

  lemma LastCall(calls: seq<Op>)
    requires calls != []
    ensures Execute(NewSession, calls) == Step(Execute(NewSession, calls[..|calls| - 1]), calls[|calls| - 1])
  {
    var n := |calls| - 1;
    assert calls == calls[..n] + [calls[n]];
    ExecuteLast(NewSession, calls[..n], calls[n]);
  }

  lemma {:induction false} MadeIsMadeBy(calls: seq<Op>)
    ensures Execute(NewSession, calls).made == MadeBy(calls)
    decreases |calls|
  {
    if calls != [] {
      LastCall(calls);
      MadeIsMadeBy(calls[..|calls| - 1]);
    }
  }

  /** The call at `i` gives the closure, and no later one takes it. */
  predicate AwaitsAt(calls: seq<Op>, c: nat, i: nat)
    requires i < |calls|
  {
    calls[i].After? && MadeBy(calls[..i]) == c && forall j :: i < j < |calls| ==> !Takes(calls[j])
  }

  lemma AwaitsEarlier(before: seq<Op>, op: Op, c: nat, i: nat)
    requires i < |before|
    ensures AwaitsAt(before + [op], c, i) <==> AwaitsAt(before, c, i) && !Takes(op)
  {
    hide Takes, MadeBy;
    var calls := before + [op];
    assert calls[..i] == before[..i] && calls[i] == before[i] && calls[|before|] == op;
    assert forall j :: i < j < |before| ==> calls[j] == before[j];
  }

  lemma AwaitsNow(before: seq<Op>, op: Op, c: nat)
    ensures AwaitsAt(before + [op], c, |before|) <==> op.After? && c == MadeBy(before)
  {
    hide Takes, MadeBy;
    assert (before + [op])[..|before|] == before;
  }

  lemma AwaitsLast(before: seq<Op>, op: Op, c: nat)
    ensures Awaits(before + [op], c) <==>
            if op.After? then Awaits(before, c) || c == MadeBy(before) else Awaits(before, c) && !Takes(op)
  {
    hide AwaitsAt, MadeBy;
    var calls := before + [op];
    AwaitsNow(before, op, c);
    if i: nat :| i < |calls| && AwaitsAt(calls, c, i) {
      if i < |before| { AwaitsEarlier(before, op, c, i); }
    }
    if Awaits(before, c) && !Takes(op) {
      var i: nat :| i < |before| && AwaitsAt(before, c, i);
      AwaitsEarlier(before, op, c, i);
    }
  }

  /** Which closures wait after one more call. */
  lemma WaitingNext(s: State, op: Op)
    requires Flags(s)
    ensures Step(s, op).afterClosures == if op.After? then s.afterClosures + [s.made] else if Takes(op) then [] else s.afterClosures
  {}

  ghost predicate Rising(q: seq<nat>, top: nat) {
    (forall i, j :: 0 <= i < j < |q| ==> q[i] < q[j]) && forall c :: c in q ==> c < top
  }

  lemma RisingNext(q: seq<nat>, top: nat)
    requires Rising(q, top)
    ensures Rising(q + [top], top + 1) && Rising(q, top + 1)
  {
    assert forall i :: 0 <= i < |q| ==> q[i] in q;
  }

  /** In every reachable state exactly those closures wait, in the order in which they were given. */
  lemma {:induction false} AwaitingIff(calls: seq<Op>)
    ensures forall c :: c in Execute(NewSession, calls).afterClosures <==> Awaits(calls, c)
    ensures Rising(Execute(NewSession, calls).afterClosures, MadeBy(calls))
    decreases |calls|
  {
    hide Execute, Step, Awaits, Takes, Rising;
    if calls == [] {
      NoneAwaits();
    } else {
      var n := |calls| - 1;
      var before, op := calls[..n], calls[n];
      assert before + [op] == calls;
      LastCall(calls);
      AwaitingIff(before);
      MadeIsMadeBy(before);
      var s := Execute(NewSession, before);
      WaitingNext(s, op);
      RisingNext(s.afterClosures, s.made);
      AfterMakes(op);
      assert Rising([], MadeBy(calls)) by { NoneRise(MadeBy(calls)); }
      forall c: nat ensures Awaits(calls, c) <==>
        if op.After? then Awaits(before, c) || c == MadeBy(before) else Awaits(before, c) && !Takes(op) { AwaitsLast(before, op, c); }
    }
  }

  lemma NoneAwaits()
    ensures Execute(NewSession, []).afterClosures == [] && (forall c :: !Awaits([], c)) && Rising([], 0)
  {}

  lemma NoneRise(top: nat)
    ensures Rising([], top)
  {}

  lemma AfterMakes(op: Op)
    ensures op.After? ==> Makes(op) && !Takes(op)
  {}

  // ----- closures that are dropped -----

  /** A closure that still waits, or is not made yet, has not run and is not in the maps. */
  ghost predicate Unused(s: State) {
    && (forall c :: c in s.afterClosures ==> c < s.made)
    && (forall x: Job :: x.closure in s.afterClosures || x.closure >= s.made ==> Tally(s, x) == 0)
  }

  /** The closure is out of reach. */
  ghost predicate Gone(s: State, c: nat) {
    c < s.made && c !in s.afterClosures && forall x: Job :: x.closure == c ==> Tally(s, x) == 0
  }

  lemma HandedFromHanding(s: State, op: Op, x: Job)
    ensures Handed(s, op, x) > 0 ==> op.Write? && x.closure in Handing(s, op.stamp)
  {
    if op.Write? && x.closure !in Handing(s, op.stamp) { NotHanded(op.beans, Handing(s, op.stamp), x.bean, x.closure); }
  }

  lemma {:induction false} NotHanded(beans: seq<Bean>, closures: seq<nat>, b: Bean, c: nat)
    requires c !in closures
    ensures HandedOver(beans, closures, b, c) == 0
    decreases |beans|
  {
    if beans != [] { NotHanded(beans[1..], closures, b, c); }
  }

  lemma StepUnused(s: State, op: Op)
    requires Flags(s) && GoodStep(s, op) && Unused(s)
    ensures Unused(Step(s, op))
  {
    hide Tally, GoodStep, Lost, Handed;
    forall x: Job | x.closure in Step(s, op).afterClosures || x.closure >= Step(s, op).made ensures Tally(Step(s, op), x) == 0 {
      StepConserves(s, op, x);
      HandedFromHanding(s, op, x);
    }
  }

  lemma StepGone(s: State, op: Op, c: nat)
    requires Flags(s) && GoodStep(s, op) && Gone(s, c)
    ensures Gone(Step(s, op), c)
  {
    hide Tally, GoodStep, Lost, Handed;
    forall x: Job | x.closure == c ensures Tally(Step(s, op), x) == 0 {
      StepConserves(s, op, x);
      HandedFromHanding(s, op, x);
    }
  }

  lemma {:induction false} RunUnused(s: State, calls: seq<Op>)
    requires Flags(s) && Possible(s, calls) && Unused(s)
    ensures Unused(Execute(s, calls))
    decreases |calls|
  {
    hide Unused, GoodStep;
    if calls != [] {
      StepUnused(s, calls[0]);
      RunUnused(Step(s, calls[0]), calls[1..]);
    }
  }

  lemma {:induction false} RunGone(s: State, calls: seq<Op>, c: nat)
    requires Flags(s) && Possible(s, calls) && Gone(s, c)
    ensures Gone(Execute(s, calls), c)
    decreases |calls|
  {
    hide Gone, GoodStep;
    if calls != [] {
      StepGone(s, calls[0], c);
      RunGone(Step(s, calls[0]), calls[1..], c);
    }
  }

  lemma {:induction false} PossibleParts(s: State, a: seq<Op>, b: seq<Op>)
    requires Flags(s) && Possible(s, a + b)
    ensures Possible(s, a) && Possible(Execute(s, a), b)
    decreases |a|
  {
    if a == [] {
      assert a + b == b;
    } else {
      assert (a + b)[0] == a[0] && (a + b)[1..] == a[1..] + b;
      PossibleParts(Step(s, a[0]), a[1..], b);
    }
  }

  /** A closure that awaits a write which fails, or a statement that does, never runs on any bean,
      whatever the session does afterwards. So does one that a failing soft delete has made. */
  lemma DroppedNeverRuns(calls: seq<Op>, op: Op, later: seq<Op>, x: Job)
    requires Possible(NewSession, calls + [op] + later)
    requires (op.Write? || op.RawExec?) && !op.driverOk
    requires Awaits(calls, x.closure) || (Makes(op) && x.closure == MadeBy(calls))
    ensures Ran(Execute(NewSession, calls + [op] + later).log, x) == 0
  {
    hide Awaits, GoodStep, Possible;
    assert calls + [op] + later == calls + ([op] + later);
    PossibleParts(NewSession, calls, [op] + later);
    var s := Execute(NewSession, calls);
    PossibleParts(s, [op], later);
    AwaitingIff(calls);
    MadeIsMadeBy(calls);
    NothingUsed();
    RunUnused(NewSession, calls);
    var t := Step(s, op);
    assert [op][1..] == [] && Execute(s, [op]) == t;
    FailingIsGone(s, op, x.closure);
    RunGone(t, later, x.closure);
    ExecuteConcat(NewSession, calls, [op] + later);
    ExecuteConcat(s, [op], later);
    assert Tally(Execute(t, later), x) == 0;
  }

  lemma NothingUsed()
    ensures Unused(NewSession)
  {}

  lemma FailingIsGone(s: State, op: Op, c: nat)
    requires Flags(s) && Unused(s) && (op.Write? || op.RawExec?) && !op.driverOk
    requires c in s.afterClosures || (Makes(op) && c == s.made)
    ensures Gone(Step(s, op), c)
  {
    hide Tally;
    forall x: Job | x.closure == c ensures Tally(Step(s, op), x) == 0 {
      StepConserves(s, op, x);
    }
  }

  // ----- what one bean sees -----

  /** The calls on the bean after one kind of write, in order. */
  function Seen(log: seq<Event>, kind: Kind, bean: Bean): seq<Act> {
    if log == [] then []
    else
      var e := log[|log| - 1];
      Seen(log[..|log| - 1], kind, bean) + if e.Call? && e.kind == kind && e.bean == bean then [e.act] else []
  }

  lemma {:induction false} SeenConcat(a: seq<Event>, b: seq<Event>, kind: Kind, bean: Bean)
    ensures Seen(a + b, kind, bean) == Seen(a, kind, bean) + Seen(b, kind, bean)
    decreases |b|
  {
    if b == [] {
      assert a + b == a;
    } else {
      var n := |b| - 1;
      assert (a + b)[..|a + b| - 1] == a + b[..n];
      SeenConcat(a, b[..n], kind, bean);
    }
  }

  /** All closures, in their order, and then the hook if the bean has one. */
  function Acts(closures: seq<nat>): (r: seq<Act>)
    ensures |r| == |closures| && forall i :: 0 <= i < |r| ==> r[i] == Act.Run(closures[i])
  {
    seq(|closures|, i requires 0 <= i < |closures| => Act.Run(closures[i]))
  }

  function HookOf(kind: Kind, bean: Bean): seq<Act> { if kind in bean.hooks then [Hook] else [] }

  function Again<T>(s: seq<T>, n: nat): seq<T> { if n == 0 then [] else s + Again(s, n - 1) }

  lemma SeenOne(e: Event, kind: Kind, bean: Bean)
    ensures Seen([e], kind, bean) == if e.Call? && e.kind == kind && e.bean == bean then [e.act] else []
  {
    assert [e][..0] == [] && Seen([], kind, bean) == [];
  }

  lemma {:induction false} SeenRuns(k: Kind, b: Bean, closures: seq<nat>, kind: Kind, bean: Bean)
    ensures Seen(Runs(k, b, closures), kind, bean) == if k == kind && b == bean then Acts(closures) else []
    decreases |closures|
  {
    if closures != [] {
      var first := Call(k, b, Act.Run(closures[0]));
      SeenRuns(k, b, closures[1..], kind, bean);
      SeenConcat([first], Runs(k, b, closures[1..]), kind, bean);
      SeenOne(first, kind, bean);
      assert k == kind && b == bean ==> Acts(closures) == [Act.Run(closures[0])] + Acts(closures[1..]);
      hide Seen, Acts;
    }
  }

  lemma SeenBeanCalls(k: Kind, b: Bean, closures: seq<nat>, kind: Kind, bean: Bean)
    ensures Seen(BeanCalls(k, b, closures), kind, bean) == if k == kind && b == bean then Acts(closures) + HookOf(kind, bean) else []
  {
    SeenRuns(k, b, closures, kind, bean);
    var hook := if k in b.hooks then [Call(k, b, Hook)] else [];
    SeenConcat(Runs(k, b, closures), hook, kind, bean);
    SeenOne(Call(k, b, Hook), kind, bean);
    assert Seen([], kind, bean) == [];
    hide Seen, Acts, Runs;
  }

  lemma {:induction false} SeenNow(k: Kind, beans: seq<Bean>, closures: seq<nat>, kind: Kind, bean: Bean)
    ensures Seen(CallsNow(k, beans, closures), kind, bean) ==
            if k == kind then Again(Acts(closures) + HookOf(kind, bean), multiset(beans)[bean]) else []
    decreases |beans|
  {
    hide Seen, Acts, BeanCalls, HookOf;
    if beans == [] {
      SeenNothing(kind, bean);
    } else {
      SeenNow(k, beans[1..], closures, kind, bean);
      SeenConcat(BeanCalls(k, beans[0], closures), CallsNow(k, beans[1..], closures), kind, bean);
      SeenBeanCalls(k, beans[0], closures, kind, bean);
      assert beans == [beans[0]] + beans[1..];
    }
  }

  lemma SeenNothing(kind: Kind, bean: Bean)
    ensures Seen([], kind, bean) == []
  {}

  lemma {:induction false} SeenCalls(k: Kind, p: Pending, order: seq<Bean>, kind: Kind, bean: Bean)
    requires forall i, j :: 0 <= i < j < |order| ==> order[i] != order[j]
    ensures Seen(Calls(k, p, order), kind, bean) ==
            if k == kind && bean in order then Acts(Closures(p, bean)) + HookOf(kind, bean) else []
    decreases |order|
  {
    hide Seen, Acts, BeanCalls, HookOf, Closures;
    if order == [] {
      SeenNothing(kind, bean);
    } else {
      SeenCalls(k, p, order[1..], kind, bean);
      SeenConcat(BeanCalls(k, order[0], Closures(p, order[0])), Calls(k, p, order[1..]), kind, bean);
      SeenBeanCalls(k, order[0], Closures(p, order[0]), kind, bean);
      assert bean in order <==> bean == order[0] || bean in order[1..];
    }
  }

  lemma SeenAll(d: Deferred, o: Order, kind: Kind, bean: Bean)
    requires GoodOrder(o, d)
    ensures Seen(AllCalls(d, o), kind, bean) ==
            if bean in d.Of(kind) then Acts(Closures(d.Of(kind), bean)) + HookOf(kind, bean) else []
  {
    hide Seen, Acts, HookOf, Closures, Calls;
    SeenCalls(Insert, d.inserts, o.inserts, kind, bean);
    SeenCalls(Update, d.updates, o.updates, kind, bean);
    SeenCalls(Delete, d.deletes, o.deletes, kind, bean);
    var a, b, c := Calls(Insert, d.inserts, o.inserts), Calls(Update, d.updates, o.updates), Calls(Delete, d.deletes, o.deletes);
    SeenConcat(a, b, kind, bean);
    SeenConcat(a + b, c, kind, bean);
    assert AllCalls(d, o) == a + b + c;
    hide AllCalls;
  }

  /** What a call lets a bean see: at a successful Commit the closures that wait for it, in order, and
      then its hook; at a write outside a transaction the same for each time it is named; else nothing. */
  lemma StepShows(s: State, op: Op, kind: Kind, bean: Bean)
    requires Flags(s) && GoodStep(s, op)
    ensures
      Seen(Step(s, op).log, kind, bean) == Seen(s.log, kind, bean) +
        if op.Commit? && op.driverOk && Live(s) then
          (if bean in s.deferred.Of(kind) then Acts(Closures(s.deferred.Of(kind), bean)) + HookOf(kind, bean) else [])
        else if op.Write? && op.driverOk && s.isAutoCommit && op.kind == kind then
          Again(Acts(s.afterClosures + if op.stamp then [s.made] else []) + HookOf(kind, bean), multiset(op.beans)[bean])
        else []
  {
    hide Seen, Acts, HookOf, Closures, AllCalls, GoodOrder, Again, CallsNow;
    match op
    case Begin(_) => Unseen(s.log, Opened(s.begun), kind, bean);
    case Rollback(ok) => if Live(s) { Unseen(s.log, RolledBack(s.tx.value, ok), kind, bean); }
    case Close(_, ok) => if Live(s) { Unseen(s.log, RolledBack(s.tx.value, ok), kind, bean); }
    case After =>
    case RawExec(_) =>
    case Commit(ok, o) =>
      if Live(s) {
        Unseen(s.log, Committed(s.tx.value, ok), kind, bean);
        if ok {
          SeenConcat(s.log + [Committed(s.tx.value, ok)], AllCalls(s.deferred, o), kind, bean);
          SeenAll(s.deferred, o, kind, bean);
        }
      }
    case Write(k, beans, stamp, ok) =>
      if s.isAutoCommit {
        assert s.afterClosures + [] == s.afterClosures;
        SeenConcat(s.log, CallsNow(k, beans, Handing(s, stamp)), kind, bean);
        SeenNow(k, beans, Handing(s, stamp), kind, bean);
      }
  }

  lemma Unseen(log: seq<Event>, e: Event, kind: Kind, bean: Bean)
    requires !e.Call?
    ensures Seen(log + [e], kind, bean) == Seen(log, kind, bean)
  {
    SeenConcat(log, [e], kind, bean);
    SeenOne(e, kind, bean);
  }

  // ----- what waits for one bean -----

  lemma {:induction false} NoteAllIs(p: Pending, kind: Kind, beans: seq<Bean>, closures: seq<nat>, b: Bean)
    ensures
      var q := NoteAll(p, kind, beans, closures);
      && (b in q <==> b in p || (b in beans && (closures != [] || kind in b.hooks)))
      && Closures(q, b) == if closures == [] && b in beans && kind in b.hooks then []
                           else Closures(p, b) + Again(closures, multiset(beans)[b])
    decreases |beans|
  {
    hide Note, Closures, Again;
    NoneAgain(closures);
    if beans == [] {
      assert Closures(p, b) + [] == Closures(p, b);
    } else {
      var n := multiset(beans[1..])[b];
      NoteIs(p, kind, beans[0], closures, b);
      NoteAllIs(Note(p, kind, beans[0], closures), kind, beans[1..], closures, b);
      AgainNothing(n);
      AgainNothing(n + 1);
      AgainFirst(Closures(p, b), closures, n);
      FirstOf(beans, b);
    }
  }

  lemma NoneAgain(s: seq<nat>)
    ensures Again(s, 0) == []
  {}

  lemma FirstOf(beans: seq<Bean>, b: Bean)
    requires beans != []
    ensures multiset(beans)[b] == multiset(beans[1..])[b] + if beans[0] == b then 1 else 0
    ensures b in beans <==> b == beans[0] || b in beans[1..]
  {
    assert beans == [beans[0]] + beans[1..];
  }

  lemma {:induction false} AgainNothing(n: nat)
    ensures Again<nat>([], n) == []
  {
    if n > 0 { AgainNothing(n - 1); }
  }

  lemma AgainFirst(a: seq<nat>, s: seq<nat>, n: nat)
    ensures (a + s) + Again(s, n) == a + Again(s, n + 1) && a + [] == a
  {}

  lemma NoteIs(p: Pending, kind: Kind, bean: Bean, closures: seq<nat>, b: Bean)
    ensures
      var q := Note(p, kind, bean, closures);
      && (b in q <==> b in p || (b == bean && (closures != [] || kind in b.hooks)))
      && Closures(q, b) == if b != bean then Closures(p, b)
                           else if closures == [] && kind in b.hooks then [] else Closures(p, b) + closures
  {
    assert Closures(p, b) + [] == Closures(p, b);
  }

  /** What waits for a bean after a call: a successful write inside a transaction adds its closures
      behind those that wait, once for each time it names the bean, or without closures puts an empty
      entry for a bean with a hook in their place; a successful Commit takes all. */
  lemma StepWaits(s: State, op: Op, kind: Kind, bean: Bean)
    requires Flags(s)
    ensures
      var p, q := s.deferred.Of(kind), Step(s, op).deferred.Of(kind);
      if op.Commit? && op.driverOk && Live(s) then q == map[]
      else if op.Write? && op.driverOk && !s.isAutoCommit && op.kind == kind then
        var closures := s.afterClosures + if op.stamp then [s.made] else [];
        && (bean in q <==> bean in p || (bean in op.beans && (closures != [] || kind in bean.hooks)))
        && Closures(q, bean) == if closures == [] && bean in op.beans && kind in bean.hooks then []
                                else Closures(p, bean) + Again(closures, multiset(op.beans)[bean])
      else q == p
  {
    hide NoteAll, CallsNow, Closures, Again, AllCalls, Handing;
    if op.Write? {
      HandingIs(s, op.stamp);
      NoteAllIs(s.deferred.Of(op.kind), op.kind, op.beans, Handing(s, op.stamp), bean);
      WriteDefers(s, op.kind, op.beans, op.stamp, op.driverOk, kind);
      hide Step;
    }
  }

  lemma HandingIs(s: State, stamp: bool)
    ensures Handing(s, stamp) == s.afterClosures + if stamp then [s.made] else []
  {
    assert s.afterClosures + [] == s.afterClosures;
  }

  lemma WriteDefers(s: State, k: Kind, beans: seq<Bean>, stamp: bool, ok: bool, kind: Kind)
    requires Flags(s)
    ensures
      Step(s, Write(k, beans, stamp, ok)).deferred.Of(kind) ==
      if ok && !s.isAutoCommit && k == kind then NoteAll(s.deferred.Of(kind), kind, beans, Handing(s, stamp)) else s.deferred.Of(kind)
  {
    hide NoteAll, CallsNow, Handing;
  }

  /** The bean was named by a successful write of this kind. */
  predicate Written(calls: seq<Op>, kind: Kind, bean: Bean) {
    exists i :: 0 <= i < |calls| && calls[i].Write? && calls[i].driverOk && calls[i].kind == kind && bean in calls[i].beans
  }

  lemma {:induction false} HookedEntryIff(s: State, calls: seq<Op>, kind: Kind, bean: Bean)
    requires Flags(s) && Live(s) && (forall i :: 0 <= i < |calls| ==> Inside(calls[i])) && kind in bean.hooks
    ensures
      var t := Execute(s, calls);
      Live(t) && (bean in t.deferred.Of(kind) <==> bean in s.deferred.Of(kind) || Written(calls, kind, bean))
    decreases |calls|
  {
    if calls != [] {
      var next, rest := Step(s, calls[0]), calls[1..];
      StepWaits(s, calls[0], kind, bean);
      HookedEntryIff(next, rest, kind, bean);
      if Written(calls, kind, bean) {
        var i :| 0 <= i < |calls| && calls[i].Write? && calls[i].driverOk && calls[i].kind == kind && bean in calls[i].beans;
        if i > 0 { assert rest[i - 1] == calls[i]; }
      }
      if Written(rest, kind, bean) {
        var i :| 0 <= i < |rest| && rest[i].Write? && rest[i].driverOk && rest[i].kind == kind && bean in rest[i].beans;
        assert calls[i + 1] == rest[i];
      }
      hide Step, Written;
    }
  }

  /** Begin, any writes, Commit, in a session with nothing waiting: a bean's hook for a kind of write
      runs, once and after its closures, exactly if it has one and some write of the kind named it and
      succeeded. */
  lemma CommitRunsHookIff(s: State, body: seq<Op>, o: Order, kind: Kind, bean: Bean)
    requires Flags(s) && s.isAutoCommit && s.deferred == Nothing
    requires forall i :: 0 <= i < |body| ==> Inside(body[i])
    requires GoodOrder(o, Execute(DoBegin(s, true), body).deferred)
    ensures
      var full := Execute(DoBegin(s, true), body);
      var done := DoCommit(full, true, o);
      var closures := Closures(full.deferred.Of(kind), bean);
      Seen(done.log, kind, bean) ==
        Seen(s.log, kind, bean) + Acts(closures) + if kind in bean.hooks && Written(body, kind, bean) then [Hook] else []
  {
    hide Execute, Seen, Acts, GoodOrder, Written;
    var begun := DoBegin(s, true);
    var full := Execute(begun, body);
    InsideKeepsLive(begun, body, Job(kind, bean, 0));
    Unseen(s.log, Opened(s.begun), kind, bean);
    StepShows(full, Commit(true, o), kind, bean);
    if kind in bean.hooks { HookedEntryIff(begun, body, kind, bean); }
    var seen, acts := Seen(s.log, kind, bean), Acts(Closures(full.deferred.Of(kind), bean));
    assert seen + (acts + HookOf(kind, bean)) == seen + acts + HookOf(kind, bean);
    assert acts + [] == acts && seen + [] == seen;
    if bean !in full.deferred.Of(kind) { assert Closures(full.deferred.Of(kind), bean) == [] && acts == []; }
  }

  // ----- the end of a transaction -----

  function Rank(kind: Kind): nat { match kind case Insert => 0 case Update => 1 case Delete => 2 }

  /** After the inserts' calls come those of the updates, then those of the deletes. */
  ghost predicate InPhases(es: seq<Event>) {
    forall i, j :: 0 <= i < j < |es| && es[i].Call? && es[j].Call? ==> Rank(es[i].kind) <= Rank(es[j].kind)
  }

  lemma {:induction false} RunsOfKind(kind: Kind, bean: Bean, closures: seq<nat>)
    ensures forall e :: e in Runs(kind, bean, closures) ==> e.Call? && e.kind == kind
    decreases |closures|
  {
    if closures != [] { RunsOfKind(kind, bean, closures[1..]); }
  }

  lemma {:induction false} CallsOfKind(kind: Kind, p: Pending, order: seq<Bean>)
    ensures forall e :: e in Calls(kind, p, order) ==> e.Call? && e.kind == kind
    decreases |order|
  {
    if order != [] {
      RunsOfKind(kind, order[0], Closures(p, order[0]));
      CallsOfKind(kind, p, order[1..]);
    }
  }

  /** A Commit or Rollback of a live transaction ends it, whatever the driver answers; the driver has
      been asked once, and if a Commit succeeded the calls follow, inserts before updates before
      deletes. */
  lemma EndsOnce(s: State, op: Op)
    requires Flags(s) && Live(s) && (op.Commit? || op.Rollback?)
    ensures
      var t := Step(s, op);
      var end := if op.Commit? then Committed(s.tx.value, op.driverOk) else RolledBack(s.tx.value, op.driverOk);
      && t.isAutoCommit && !Live(t) && |t.log| > |s.log| && t.log[..|s.log| + 1] == s.log + [end]
      && (op.Rollback? || !op.driverOk ==> t.log == s.log + [end])
      && OnlyCalls(t.log[|s.log| + 1..]) && InPhases(t.log[|s.log| + 1..])
  {
    if op.Commit? {
      var d, o := s.deferred, op.order;
      CallsOfKind(Insert, d.inserts, o.inserts);
      CallsOfKind(Update, d.updates, o.updates);
      CallsOfKind(Delete, d.deletes, o.deletes);
      Phases(Calls(Insert, d.inserts, o.inserts), Calls(Update, d.updates, o.updates), Calls(Delete, d.deletes, o.deletes));
      AllCallsOnly(d, o);
      hide Calls, InPhases;
      assert AllCalls(d, o) == Calls(Insert, d.inserts, o.inserts) + Calls(Update, d.updates, o.updates) + Calls(Delete, d.deletes, o.deletes);
      var end := Committed(s.tx.value, op.driverOk);
      assert (s.log + [end] + AllCalls(d, o))[|s.log| + 1..] == AllCalls(d, o);
      assert (s.log + [end])[|s.log| + 1..] == [];
      assert InPhases([]) by { NoPhases(); }
    } else {
      NoPhases();
      assert (s.log + [RolledBack(s.tx.value, op.driverOk)])[|s.log| + 1..] == [];
    }
  }

  /** A Close without error lets go of the transaction; with one it changes nothing, or ends a live
      transaction and keeps the session open. */
  lemma CloseLetsGo(s: State, stmtsOk: bool, driverOk: bool)
    requires Flags(s) && !s.isClosed
    ensures
      var t := Step(s, Close(stmtsOk, driverOk));
      if !stmtsOk then t == s
      else
        && t.isClosed == (driverOk || !Live(s)) && (t.isClosed ==> t.tx == None) && !Live(t)
        && t.log == s.log + (if Live(s) then [RolledBack(s.tx.value, driverOk)] else [])
        && t.deferred == s.deferred && t.afterClosures == s.afterClosures
  {
    assert s.log + [] == s.log;
  }

  lemma NoPhases()
    ensures InPhases([])
  {}

  lemma Phases(a: seq<Event>, b: seq<Event>, c: seq<Event>)
    requires (forall e :: e in a ==> e.Call? && e.kind == Insert) && (forall e :: e in b ==> e.Call? && e.kind == Update)
    requires forall e :: e in c ==> e.Call? && e.kind == Delete
    ensures InPhases(a + b + c)
  {
    var all := a + b + c;
    forall i, j | 0 <= i < j < |all| && all[i].Call? && all[j].Call? ensures Rank(all[i].kind) <= Rank(all[j].kind) {
      if i < |a| { assert all[i] in a; } else if i < |a| + |b| { assert all[i] == b[i - |a|] && all[i] in b; } else { assert all[i] in c; }
      if j < |a| { assert all[j] in a; } else if j < |a| + |b| { assert all[j] in b; } else { assert all[j] == c[j - |a| - |b|] && all[j] in c; }
    }
  }
}
