/** The session's transaction methods, field by field, and Engine.Transaction, all proved equal to
    the state machine of TxSpec. */
module TxSession {
  import opened Utils
  import opened Values
  import opened TxSpec

  /** The driver and the world the closures act on. */
  class World {
    var begun: nat
    var made: nat
    var log: seq<Event>

    constructor ()
      ensures begun == 0 && made == 0 && log == []
    { begun, made, log := 0, 0, []; }
  }

  lemma Regroup<T>(log: seq<T>, a: seq<T>, b: seq<T>, c: seq<T>)
    ensures log + a + b + c == log + (a + b + c)
  {}

  lemma {:induction false} RunsAppend(kind: Kind, bean: Bean, closures: seq<nat>, c: nat)
    ensures Runs(kind, bean, closures + [c]) == Runs(kind, bean, closures) + [Call(kind, bean, Act.Run(c))]
    decreases |closures|
  {
    if closures != [] {
      assert (closures + [c])[1..] == closures[1..] + [c];
      RunsAppend(kind, bean, closures[1..], c);
    } else {
      assert [c][1..] == [];
    }
  }

  lemma {:induction false} CallsAppend(kind: Kind, p: Pending, order: seq<Bean>, b: Bean)
    ensures Calls(kind, p, order + [b]) == Calls(kind, p, order) + BeanCalls(kind, b, Closures(p, b))
    decreases |order|
  {
    if order != [] {
      assert (order + [b])[1..] == order[1..] + [b];
      CallsAppend(kind, p, order[1..], b);
    } else {
      assert [b][1..] == [];
    }
  }

  lemma {:induction false} CallsNowAppend(kind: Kind, beans: seq<Bean>, closures: seq<nat>, b: Bean)
    ensures CallsNow(kind, beans + [b], closures) == CallsNow(kind, beans, closures) + BeanCalls(kind, b, closures)
    decreases |beans|
  {
    if beans != [] {
      assert (beans + [b])[1..] == beans[1..] + [b];
      CallsNowAppend(kind, beans[1..], closures, b);
    } else {
      assert [b][1..] == [];
    }
  }

  lemma {:induction false} NoteAllAppend(p: Pending, kind: Kind, beans: seq<Bean>, closures: seq<nat>, b: Bean)
    ensures NoteAll(p, kind, beans + [b], closures) == Note(NoteAll(p, kind, beans, closures), kind, b, closures)
    decreases |beans|
  {
    if beans != [] {
      assert (beans + [b])[1..] == beans[1..] + [b];
      NoteAllAppend(Note(p, kind, beans[0], closures), kind, beans[1..], closures, b);
    } else {
      assert [b][1..] == [];
    }
  }

  lemma CallsNone(kind: Kind, p: Pending)
    ensures Calls(kind, p, []) == []
  {}

  /** A walk over the map has still `rest` to visit. */
  ghost predicate Walked(order: seq<Bean>, p: Pending, rest: set<Bean>) {
    && rest <= p.Keys && (forall b :: b in order <==> b in p && b !in rest)
    && (forall i, j :: 0 <= i < j < |order| ==> order[i] != order[j])
  }

  lemma WalkOn(order: seq<Bean>, p: Pending, rest: set<Bean>, bean: Bean)
    requires Walked(order, p, rest) && bean in rest
    ensures Walked(order + [bean], p, rest - {bean})
  {
    assert forall i :: 0 <= i < |order| ==> order[i] in order;
  }

  class Session {
    const world: World
    var isAutoCommit: bool
    var isCommitedOrRollbacked: bool
    var tx: Option<nat>
    var isClosed: bool
    var afterInsertBeans: Pending
    var afterUpdateBeans: Pending
    var afterDeleteBeans: Pending
    var afterClosures: seq<nat>

    function View(): State
      reads this, world
    {
      State(isAutoCommit, isCommitedOrRollbacked, tx, isClosed,
            Deferred(afterInsertBeans, afterUpdateBeans, afterDeleteBeans),
            afterClosures, world.begun, world.made, world.log)
    }

    constructor (w: World)
      ensures world == w && isAutoCommit && !isCommitedOrRollbacked && tx == None && !isClosed
      ensures afterInsertBeans == map[] && afterUpdateBeans == map[] && afterDeleteBeans == map[]
      ensures afterClosures == []
    {
      world := w;
      isAutoCommit, isCommitedOrRollbacked, tx, isClosed := true, false, None, false;
      afterInsertBeans, afterUpdateBeans, afterDeleteBeans, afterClosures := map[], map[], map[], [];
    }

    /** Begin and BeginTx differ only in the options they pass to the driver. */
    method Begin(driverOk: bool) returns (ok: bool)
      modifies this, world
      ensures View() == DoBegin(old(View()), driverOk)
      ensures ok <==> driverOk || !old(isAutoCommit)
    {
      if isAutoCommit {
        if !driverOk { return false; }
        isAutoCommit := false;
        isCommitedOrRollbacked := false;
        tx := Some(world.begun);
        world.log := world.log + [Opened(world.begun)];
        world.begun := world.begun + 1;
      }
      return true;
    }

    method Rollback(driverOk: bool) returns (ok: bool)
      requires Flags(View())
      modifies this, world
      ensures View() == DoRollback(old(View()), driverOk)
      ensures ok <==> driverOk || !Live(old(View()))
    {
      ok := true;
      if !isAutoCommit && !isCommitedOrRollbacked {
        isCommitedOrRollbacked := true;
        isAutoCommit := true;
        world.log := world.log + [RolledBack(tx.value, driverOk)];
        ok := driverOk;
      }
    }

    method RunClosures(kind: Kind, bean: Bean, closures: seq<nat>)
      modifies world`log
      ensures world.log == old(world.log) + BeanCalls(kind, bean, closures)
    {
      for i := 0 to |closures|
        invariant world.log == old(world.log) + Runs(kind, bean, closures[..i])
      {
        RunsAppend(kind, bean, closures[..i], closures[i]);
        assert closures[..i + 1] == closures[..i] + [closures[i]];
        world.log := world.log + [Call(kind, bean, Act.Run(closures[i]))];
      }
      assert closures[..|closures|] == closures;
      if kind in bean.hooks {
        world.log := world.log + [Call(kind, bean, Hook)];
      }
    }

    /** One of Commit's walks over a map, in an order of its own choice. */
    method RunDeferred(kind: Kind, p: Pending) returns (ghost order: seq<Bean>)
      modifies world`log
      ensures Enumerates(order, p) && world.log == old(world.log) + Calls(kind, p, order)
    {
      hide Calls, BeanCalls, Runs;
      order := [];
      var rest := p.Keys;
      CallsNone(kind, p);
      while rest != {}
        invariant Walked(order, p, rest)
        invariant world.log == old(world.log) + Calls(kind, p, order)
      {
        var bean :| bean in rest;
        RunClosures(kind, bean, if p[bean] != None then p[bean].value else []);
        WalkOn(order, p, rest, bean);
        rest := rest - {bean};
        CallsAppend(kind, p, order, bean);
        order := order + [bean];
      }
    }

    /** The three walks and the clean-up. */
    method RunAllDeferred() returns (ghost order: Order)
      modifies this, world
      ensures GoodOrder(order, old(View()).deferred)
      ensures View() == old(View()).(deferred := Nothing, log := old(world.log) + AllCalls(old(View()).deferred, order))
    {
      hide Enumerates, Calls;
      ghost var inserts := RunDeferred(Kind.Insert, afterInsertBeans);
      ghost var updates := RunDeferred(Kind.Update, afterUpdateBeans);
      ghost var deletes := RunDeferred(Kind.Delete, afterDeleteBeans);
      order := Order(inserts, updates, deletes);
      Regroup(old(world.log), Calls(Kind.Insert, afterInsertBeans, inserts),
              Calls(Kind.Update, afterUpdateBeans, updates), Calls(Kind.Delete, afterDeleteBeans, deletes));
      if |afterInsertBeans| > 0 { afterInsertBeans := map[]; }
      if |afterUpdateBeans| > 0 { afterUpdateBeans := map[]; }
      if |afterDeleteBeans| > 0 { afterDeleteBeans := map[]; }
    }

    method Commit(driverOk: bool) returns (ok: bool, ghost order: Order)
      requires Flags(View())
      modifies this, world
      ensures driverOk && Live(old(View())) ==> GoodOrder(order, old(View()).deferred)
      ensures View() == DoCommit(old(View()), driverOk, order)
      ensures ok <==> driverOk || !Live(old(View()))
    {
      hide GoodOrder, AllCalls;
      order := Order([], [], []);
      if !isAutoCommit && !isCommitedOrRollbacked {
        isCommitedOrRollbacked := true;
        isAutoCommit := true;
        world.log := world.log + [Committed(tx.value, driverOk)];
        if !driverOk { return false, order; }
        order := RunAllDeferred();
      }
      return true, order;
    }

    method Close(stmtsOk: bool, driverOk: bool) returns (ok: bool)
      requires Flags(View())
      modifies this, world
      ensures View() == DoClose(old(View()), stmtsOk, driverOk)
      ensures isClosed <==> old(isClosed) || ok
    {
      if isClosed { return true; }
      if !stmtsOk { return false; }
      if tx.Some? && !isCommitedOrRollbacked {
        var rolledBack := Rollback(driverOk);
        if !rolledBack { return false; }
      }
      tx := None;
      isClosed := true;
      return true;
    }

    method After()
      modifies this, world
      ensures View() == old(View()).(afterClosures := old(afterClosures) + [old(world.made)], made := old(world.made) + 1)
    {
      afterClosures := afterClosures + [world.made];
      world.made := world.made + 1;
    }

    method RawExec(driverOk: bool)
      modifies this
      ensures View() == if driverOk then old(View()) else old(View()).(afterClosures := [])
    {
      if !driverOk { afterClosures := []; }
    }

    /** What an insert does for one bean once the driver has obliged. */
    method HandleAfterInsert(bean: Bean)
      modifies this`afterInsertBeans, world`log
      ensures world.log == old(world.log) + if isAutoCommit then BeanCalls(Kind.Insert, bean, afterClosures) else []
      ensures afterInsertBeans == if isAutoCommit then old(afterInsertBeans)
                                  else Note(old(afterInsertBeans), Kind.Insert, bean, afterClosures)
    {
      if isAutoCommit {
        RunClosures(Kind.Insert, bean, afterClosures);
      } else if |afterClosures| > 0 {
        if bean in afterInsertBeans && afterInsertBeans[bean] != None {
          afterInsertBeans := afterInsertBeans[bean := Some(afterInsertBeans[bean].value + afterClosures)];
        } else {
          afterInsertBeans := afterInsertBeans[bean := Some(afterClosures)];
        }
      } else if Kind.Insert in bean.hooks {
        afterInsertBeans := afterInsertBeans[bean := None];
      }
    }

    method HandleAll(beans: seq<Bean>)
      modifies this`afterInsertBeans, world`log
      ensures world.log == old(world.log) + if isAutoCommit then CallsNow(Kind.Insert, beans, afterClosures) else []
      ensures afterInsertBeans == if isAutoCommit then old(afterInsertBeans)
                                  else NoteAll(old(afterInsertBeans), Kind.Insert, beans, afterClosures)
    {
      hide CallsNow, NoteAll, BeanCalls, Note;
      NoneYet(Kind.Insert, afterClosures, afterInsertBeans);
      for i := 0 to |beans|
        invariant world.log == old(world.log) + if isAutoCommit then CallsNow(Kind.Insert, beans[..i], afterClosures) else []
        invariant afterInsertBeans == if isAutoCommit then old(afterInsertBeans)
                                      else NoteAll(old(afterInsertBeans), Kind.Insert, beans[..i], afterClosures)
      {
        assert beans[..i + 1] == beans[..i] + [beans[i]];
        CallsNowAppend(Kind.Insert, beans[..i], afterClosures, beans[i]);
        NoteAllAppend(old(afterInsertBeans), Kind.Insert, beans[..i], afterClosures, beans[i]);
        HandleAfterInsert(beans[i]);
      }
      assert beans[..|beans|] == beans;
    }

    /** The end of insertStruct and insertMultipleStruct: every bean gets its own copy of the
        closures. */
    method Insert(beans: seq<Bean>, driverOk: bool)
      modifies this, world
      ensures View() == DoWrite(old(View()), Kind.Insert, beans, false, driverOk)
    {
      hide CallsNow, NoteAll;
      if driverOk { HandleAll(beans); }
      afterClosures := [];
    }

    /** The end of Update. */
    method Update(bean: Bean, driverOk: bool)
      modifies this, world
      ensures View() == DoWrite(old(View()), Kind.Update, [bean], false, driverOk)
    {
      ghost var closures := afterClosures;
      if !driverOk { afterClosures := []; return; }
      OneBean(Kind.Update, bean, closures, afterUpdateBeans);
      if isAutoCommit {
        RunClosures(Kind.Update, bean, afterClosures);
      } else if |afterClosures| > 0 {
        if bean in afterUpdateBeans && afterUpdateBeans[bean] != None {
          afterUpdateBeans := afterUpdateBeans[bean := Some(afterUpdateBeans[bean].value + afterClosures)];
        } else {
          afterUpdateBeans := afterUpdateBeans[bean := Some(afterClosures)];
        }
      } else if Kind.Update in bean.hooks {
        afterUpdateBeans := afterUpdateBeans[bean := None];
      }
      afterClosures := [];
    }

    /** The end of Delete; `stamp` is the closure that sets the bean's deletion time. */
    method Delete(bean: Option<Bean>, stamp: bool, driverOk: bool)
      modifies this, world
      ensures View() == DoWrite(old(View()), Kind.Delete, if bean.Some? then [bean.value] else [], stamp, driverOk)
    {
      if stamp {
        afterClosures := afterClosures + [world.made];
        world.made := world.made + 1;
      }
      if !driverOk { afterClosures := []; return; }
      if bean.Some? {
        var b := bean.value;
        OneBean(Kind.Delete, b, afterClosures, afterDeleteBeans);
        if isAutoCommit {
          RunClosures(Kind.Delete, b, afterClosures);
        } else if |afterClosures| > 0 {
          if b in afterDeleteBeans && afterDeleteBeans[b] != None {
            afterDeleteBeans := afterDeleteBeans[b := Some(afterDeleteBeans[b].value + afterClosures)];
          } else {
            afterDeleteBeans := afterDeleteBeans[b := Some(afterClosures)];
          }
        } else if Kind.Delete in b.hooks {
          afterDeleteBeans := afterDeleteBeans[b := None];
        }
      }
      afterClosures := [];
    }

    /** One call as the state machine names it; Commit chooses its own order. */
    method Do(op: Op) returns (ghost done: Op)
      requires Flags(View())
      requires Callable(op)
      modifies this, world
      ensures SameCall(done, op) && View() == Step(old(View()), done)
      ensures GoodStep(old(View()), done)
    {
      done := op;
      match op
      case Begin(ok) => var _ := Begin(ok);
      case Rollback(ok) => var _ := Rollback(ok);
      case Commit(ok, _) =>
        var _, order := Commit(ok);
        done := Op.Commit(ok, order);
      case Close(stmtsOk, ok) => var _ := Close(stmtsOk, ok);
      case After => After();
      case RawExec(ok) => RawExec(ok);
      case Write(kind, beans, stamp, ok) =>
        match kind
        case Insert => Insert(beans, ok);
        case Update =>
          assert beans == [beans[0]];
          Update(beans[0], ok);
        case Delete =>
          if |beans| == 0 {
            Delete(None, stamp, ok);
          } else {
            assert beans == [beans[0]];
            Delete(Some(beans[0]), stamp, ok);
          }
    }
  }

  lemma NoneYet(kind: Kind, closures: seq<nat>, p: Pending)
    ensures CallsNow(kind, [], closures) == [] && NoteAll(p, kind, [], closures) == p
  {}

  lemma OneBean(kind: Kind, bean: Bean, closures: seq<nat>, p: Pending)
    ensures CallsNow(kind, [bean], closures) == BeanCalls(kind, bean, closures)
    ensures NoteAll(p, kind, [bean], closures) == Note(p, kind, bean, closures)
  {
    assert [bean][1..] == [];
    assert CallsNow(kind, [], closures) == [];
  }

  predicate SameCall(a: Op, b: Op) { a == b || (a.Commit? && b.Commit? && a.driverOk == b.driverOk) }

  /** Update takes one bean, Delete at most one, and only Delete stamps. */
  predicate Callable(op: Op) {
    op.Write? ==>
      && (op.kind.Update? ==> |op.beans| == 1)
      && (op.kind.Delete? ==> |op.beans| <= 1)
      && (op.stamp ==> op.kind.Delete?)
  }

  /** Engine.Transaction on a world of its own; `body` lists the calls the user's function
      makes, and `failed` whether it returns an error (or panics). */
  method Transaction(w: World, beginOk: bool, body: seq<Op>, failed: bool, commitOk: bool, stmtsOk: bool, closeOk: bool)
    returns (ok: bool, session: Session, ghost done: seq<Op>, ghost commit: Op)
    requires w.begun == 0 && w.made == 0 && w.log == []
    requires forall i :: 0 <= i < |body| ==> Callable(body[i])
    modifies w
    ensures commit.Commit? && |done| <= |body| && forall i :: 0 <= i < |done| ==> SameCall(done[i], body[i])
    ensures beginOk ==> |done| == |body| && Possible(DoBegin(NewSession, true), done)
    ensures fresh(session) && session.world == w
    ensures session.View() == TxSpec.Transaction(beginOk, done, failed, commit, stmtsOk, closeOk)
    ensures ok <==> beginOk && !failed && (commitOk || !Live(Execute(DoBegin(NewSession, beginOk), done)))
  {
    session := new Session(w);
    done, commit := [], Op.Commit(commitOk, Order([], [], []));
    var begun := session.Begin(beginOk);
    if !begun {
      var _ := session.Close(stmtsOk, closeOk);
      return false, session, done, commit;
    }
    ghost var start := session.View();
    assert Execute(start, []) == start;
    for i := 0 to |body|
      invariant |done| == i && forall j :: 0 <= j < i ==> SameCall(done[j], body[j])
      invariant session.View() == Execute(start, done) && Possible(start, done)
    {
      ghost var next := session.Do(body[i]);
      ExecuteLast(start, done, next);
      PossibleLast(start, done, next);
      done := done + [next];
    }
    ok := !failed;
    if !failed {
      ghost var order;
      ok, order := session.Commit(commitOk);
      commit := Op.Commit(commitOk, order);
    }
    var _ := session.Close(stmtsOk, closeOk);
  }

  lemma {:induction false} PossibleLast(s: State, ops: seq<Op>, op: Op)
    requires Flags(s) && Possible(s, ops) && GoodStep(Execute(s, ops), op)
    ensures Possible(s, ops + [op])
    decreases |ops|
  {
    if ops == [] {
      assert [op][1..] == [] && ops + [op] == [op];
    } else {
      assert (ops + [op])[1..] == ops[1..] + [op];
      PossibleLast(Step(s, ops[0]), ops[1..], op);
    }
  }
}
