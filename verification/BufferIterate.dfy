/** Iterating over a result page by page. */
module BufferIterate {
  import opened Utils
  import opened Values

  function Min(a: nat, b: nat): nat { if a < b then a else b }
  function Max(a: nat, b: nat): nat { if a > b then a else b }

  /** LIMIT size OFFSET start on the rows of the query. */
  function Page(rows: seq<Row>, start: nat, size: nat): seq<Row> {
    rows[Min(start, |rows|)..Min(start + size, |rows|)]
  }

  /** The rows of one unbuffered pass. */
  function Plain(rows: seq<Row>, start: nat, limit: Option<nat>): seq<Row> {
    match limit case None => rows[Min(start, |rows|)..] case Some(n) => Page(rows, start, n)
  }

  datatype Visit = Visit(idx: nat, row: Row)

  /** What a pass shows the callback: row after row with consecutive numbers, up to and including
      the first that it refuses. */
  function Visits(rows: seq<Row>, idx: nat, fun: Visit -> bool): seq<Visit>
    decreases |rows|
  {
    if rows == [] then []
    else [Visit(idx, rows[0])] + if fun(Visit(idx, rows[0])) then Visits(rows[1..], idx + 1, fun) else []
  }

  /** Row by row from `idx` on, each but the last accepted, and ended by a refusal or the last row. */
  lemma {:induction false} VisitsAre(rows: seq<Row>, idx: nat, fun: Visit -> bool)
    ensures
      var v := Visits(rows, idx, fun);
      && |v| <= |rows| && (rows != [] ==> v != [])
      && (forall k :: 0 <= k < |v| ==> v[k] == Visit(idx + k, rows[k]))
      && (forall k :: 0 <= k < |v| - 1 ==> fun(v[k]))
      && (|v| < |rows| ==> !fun(v[|v| - 1]))
    decreases |rows|
  {
    if rows != [] { VisitsAre(rows[1..], idx + 1, fun); }
  }

  /** The callback refuses none of them. */
  predicate Accepted(rows: seq<Row>, idx: nat, fun: Visit -> bool)
    decreases |rows|
  {
    rows == [] || (fun(Visit(idx, rows[0])) && Accepted(rows[1..], idx + 1, fun))
  }

  /** The rows that the pages of `bufferIterate` hold, all together; the limit is compared with
      the absolute position. */
  function Paged(rows: seq<Row>, start: nat, size: int, limit: Option<nat>): seq<Row>
    decreases |rows| - start
  {
    if size <= 0 then []
    else
      var page := Page(rows, start, size);
      if size > |page| then page
      else
        var next := start + |page|;
        page + Paged(rows, next, if limit.Some? && next + size > limit.value then limit.value - next else size, limit)
  }

  /** The size of the first page. */
  function FirstSize(size: nat, limit: Option<nat>): nat {
    if limit.Some? && size > limit.value then limit.value else size
  }

  method ShowPage(page: seq<Row>, start: nat, fun: Visit -> bool, visited: seq<Visit>)
    returns (seen: seq<Visit>, idx: nat, ok: bool)
    ensures seen == visited + Visits(page, start, fun)
    ensures ok <==> Accepted(page, start, fun)
    ensures ok ==> idx == start + |page|
  {
    hide Visits, Accepted;
    seen, idx := visited, start;
    assert page[0..] == page;
    for i := 0 to |page|
      invariant idx == start + i
      invariant Accepted(page, start, fun) <==> Accepted(page[i..], idx, fun)
      invariant visited + Visits(page, start, fun) == seen + Visits(page[i..], idx, fun)
    {
      assert page[i..][1..] == page[i + 1..];
      VisitsStep(page[i..], idx, fun, seen);
      seen := seen + [Visit(idx, page[i])];
      if !fun(Visit(idx, page[i])) { return seen, idx, false; }
      idx := idx + 1;
    }
    NothingShown(idx, fun);
    assert seen + [] == seen;
    return seen, idx, true;
  }

  lemma VisitsStep(rows: seq<Row>, idx: nat, fun: Visit -> bool, before: seq<Visit>)
    requires rows != []
    ensures before + Visits(rows, idx, fun) ==
            if fun(Visit(idx, rows[0])) then before + [Visit(idx, rows[0])] + Visits(rows[1..], idx + 1, fun)
            else before + [Visit(idx, rows[0])]
    ensures Accepted(rows, idx, fun) <==> fun(Visit(idx, rows[0])) && Accepted(rows[1..], idx + 1, fun)
  {}

  lemma {:induction false} VisitsConcat(a: seq<Row>, b: seq<Row>, idx: nat, fun: Visit -> bool)
    ensures Visits(a + b, idx, fun) ==
            Visits(a, idx, fun) + if Accepted(a, idx, fun) then Visits(b, idx + |a|, fun) else []
    decreases |a|
  {
    if a == [] {
      assert a + b == b;
    } else {
      assert (a + b)[0] == a[0] && (a + b)[1..] == a[1..] + b;
      VisitsConcat(a[1..], b, idx + 1, fun);
      VisitsStep(a + b, idx, fun, []);
      VisitsStep(a, idx, fun, []);
      hide Visits, Accepted;
    }
  }

  /** `bufferIterate`; a page query fails when `broken` says so for its number. */
  method Iterate(rows: seq<Row>, bufferSize: nat, start0: nat, limit: Option<nat>, fun: Visit -> bool, broken: nat -> bool)
    returns (visited: seq<Visit>, ok: bool)
    ensures visited <= Visits(Paged(rows, start0, FirstSize(bufferSize, limit), limit), 0, fun)
    ensures
      var all := Paged(rows, start0, FirstSize(bufferSize, limit), limit);
      ok || (forall k :: !broken(k)) ==> visited == Visits(all, 0, fun) && (ok <==> Accepted(all, 0, fun))
  {
    hide Visits, Accepted, Paged, Page;
    var size: int := FirstSize(bufferSize, limit);
    var start, idx, query := start0, 0, 0;
    ghost var all := Paged(rows, start, size, limit);
    ghost var shown: seq<Row> := [];
    visited := [];
    assert all == shown + all;
    NothingShown(0, fun);
    while size > 0
      invariant all == shown + Paged(rows, start, size, limit)
      invariant idx == |shown| && Accepted(shown, 0, fun)
      invariant visited == Visits(shown, 0, fun)
      decreases |rows| - start, if size > 0 then 1 else 0
    {
      SoFar(shown, Paged(rows, start, size, limit), fun);
      if broken(query) { return visited, false; }
      query := query + 1;
      var page := Page(rows, start, size);
      ghost var more := PagedStep(rows, start, size, limit);
      OnePage(shown, page, more, fun);
      JoinRows(shown, page, more);
      var shownOk;
      visited, idx, shownOk := ShowPage(page, idx, fun, visited);
      if !shownOk { return visited, false; }
      shown := shown + page;
      if size > |page| { NoMore(shown, more); return visited, true; }
      start := start + |page|;
      if limit.Some? && start + size > limit.value { size := limit.value - start; }
    }
    PagedNone(rows, start, size, limit);
    NoMore(shown, Paged(rows, start, size, limit));
    return visited, true;
  }

  lemma JoinRows(a: seq<Row>, b: seq<Row>, c: seq<Row>)
    ensures a + (b + c) == a + b + c
  {}

  lemma NoMore(a: seq<Row>, more: seq<Row>)
    requires more == []
    ensures a + more == a
  {}

  lemma SoFar(shown: seq<Row>, more: seq<Row>, fun: Visit -> bool)
    requires Accepted(shown, 0, fun)
    ensures Visits(shown, 0, fun) <= Visits(shown + more, 0, fun)
  {
    VisitsConcat(shown, more, 0, fun);
  }

  lemma NothingShown(idx: nat, fun: Visit -> bool)
    ensures Visits([], idx, fun) == [] && Accepted([], idx, fun)
  {}

  lemma PagedNone(rows: seq<Row>, start: nat, size: int, limit: Option<nat>)
    requires size <= 0
    ensures Paged(rows, start, size, limit) == []
  {}

  /** One page, and what the pages after it hold. */
  lemma PagedStep(rows: seq<Row>, start: nat, size: nat, limit: Option<nat>) returns (more: seq<Row>)
    requires size > 0
    ensures
      var page := Page(rows, start, size);
      var next := start + |page|;
      && Paged(rows, start, size, limit) == page + more
      && (size > |page| ==> more == [])
      && (size <= |page| ==> start < next <= |rows|)
      && (size <= |page| ==>
            more == Paged(rows, next, if limit.Some? && next + size > limit.value then limit.value - next else size, limit))
  {
    var page := Page(rows, start, size);
    assert size <= |page| ==> |page| == size && start + size <= |rows|;
    hide Page;
    var next := start + |page|;
    more := if size > |page| then []
            else Paged(rows, next, if limit.Some? && next + size > limit.value then limit.value - next else size, limit);
    assert page + [] == page;
  }

  /** What a further page adds to the visits. */
  lemma OnePage(shown: seq<Row>, page: seq<Row>, more: seq<Row>, fun: Visit -> bool)
    requires Accepted(shown, 0, fun)
    ensures
      var all := Visits(shown + page + more, 0, fun);
      && Visits(shown + page, 0, fun) == Visits(shown, 0, fun) + Visits(page, |shown|, fun) <= all
      && (Accepted(shown + page, 0, fun) <==> Accepted(page, |shown|, fun))
      && (!Accepted(page, |shown|, fun) ==> Visits(shown + page, 0, fun) == all && !Accepted(shown + page + more, 0, fun))
  {
    hide Visits, Accepted;
    VisitsConcat(shown, page, 0, fun);
    VisitsConcat(shown + page, more, 0, fun);
    AcceptedConcat(shown, page, fun);
    AcceptedConcat(shown + page, more, fun);
  }

  lemma AcceptedConcat(a: seq<Row>, b: seq<Row>, fun: Visit -> bool)
    ensures Accepted(a + b, 0, fun) <==> Accepted(a, 0, fun) && Accepted(b, |a|, fun)
  {
    AcceptedAfter(a, b, 0, fun);
  }

  lemma {:induction false} AcceptedAfter(a: seq<Row>, b: seq<Row>, idx: nat, fun: Visit -> bool)
    ensures Accepted(a + b, idx, fun) <==> Accepted(a, idx, fun) && Accepted(b, idx + |a|, fun)
    decreases |a|
  {
    if a == [] {
      assert a + b == b;
    } else {
      assert (a + b)[0] == a[0] && (a + b)[1..] == a[1..] + b;
      AcceptedAfter(a[1..], b, idx + 1, fun);
    }
  }

  /** The unbuffered loop of `Iterate`. */
  method IteratePlain(rows: seq<Row>, start: nat, limit: Option<nat>, fun: Visit -> bool)
    returns (visited: seq<Visit>, ok: bool)
    ensures visited == Visits(Plain(rows, start, limit), 0, fun)
    ensures ok <==> Accepted(Plain(rows, start, limit), 0, fun)
  {
    var last;
    visited, last, ok := ShowPage(Plain(rows, start, limit), 0, fun, []);
  }

  // ----- the pages and the plain pass -----

  /** Where the pages end: at the first page's end or at the limit, counted from the very first row. */
  function End(start: nat, size: nat, limit: Option<nat>, n: nat): nat {
    match limit case None => n case Some(m) => Max(start + size, m)
  }

  /** Where the rows of the pages end. */
  function Upto(start: nat, size: nat, limit: Option<nat>, n: nat): (r: nat)
    ensures Min(start, n) <= r <= n
  {
    Max(Min(start, n), Min(End(start, size, limit, n), n))
  }

  lemma {:induction false} PagedRows(rows: seq<Row>, start: nat, size: nat, limit: Option<nat>)
    requires size > 0
    ensures Paged(rows, start, size, limit) == rows[Min(start, |rows|)..Upto(start, size, limit, |rows|)]
    decreases |rows| - start
  {
    hide Paged, Page;
    var n := |rows|;
    var more := PagedStep(rows, start, size, limit);
    if start + size <= n {
      var next := start + size;
      PageIs(rows, start, size);
      var left := if limit.Some? && next + size > limit.value then limit.value - next else size;
      if left > 0 {
        PagedRows(rows, next, left, limit);
        UptoNext(start, size, limit, n);
        JoinSlices(rows, start, next, Upto(next, left, limit, n));
      } else {
        PagedNone(rows, next, left, limit);
        assert rows[start..next] + [] == rows[start..next];
      }
    } else {
      PageIs(rows, start, size);
      assert rows[Min(start, n)..n] + [] == rows[Min(start, n)..n];
    }
  }

  lemma PageIs(rows: seq<Row>, start: nat, size: nat)
    ensures start + size <= |rows| ==> Page(rows, start, size) == rows[start..start + size]
    ensures start + size > |rows| ==> Page(rows, start, size) == rows[Min(start, |rows|)..|rows|]
  {}

  /** The second page is the first one of the rest. */
  lemma UptoNext(start: nat, size: nat, limit: Option<nat>, n: nat)
    requires start + size <= n
    ensures
      var next := start + size;
      var left := if limit.Some? && next + size > limit.value then limit.value - next else size;
      left > 0 ==> Upto(next, left, limit, n) == Upto(start, size, limit, n) && next <= Upto(next, left, limit, n)
  {}

  lemma JoinSlices(rows: seq<Row>, a: nat, b: nat, c: nat)
    requires a <= b <= c <= |rows|
    ensures rows[a..b] + rows[b..c] == rows[a..c]
  {}

  /** With or without a limit, from any offset, for every buffer size: the pages hold the rows of
      the plain pass exactly if there is no limit, or no offset, or the buffer takes the whole
      limit at once, or the result ends before it matters. */
  lemma PagesAreThePlainPassIff(rows: seq<Row>, size: nat, start: nat, limit: Option<nat>)
    requires size > 0
    ensures
      Paged(rows, start, FirstSize(size, limit), limit) == Plain(rows, start, limit) <==>
        limit.None? || start == 0 || size >= limit.value || |rows| <= Max(start + size, limit.value)
  {
    var first := FirstSize(size, limit);
    if first > 0 {
      PagedRows(rows, start, first, limit);
      if limit.Some? {
        var m, n := limit.value, |rows|;
        var a, b := Max(Min(start, n), Min(Max(start + first, m), n)), Max(Min(start, n), Min(start + m, n));
        assert Plain(rows, start, limit) == rows[Min(start, n)..b];
        assert |rows[Min(start, n)..a]| == a - Min(start, n) && |rows[Min(start, n)..b]| == b - Min(start, n);
      }
    }
  }

  /** So the two ways of iterating show the callback the same rows with the same numbers. */
  lemma BufferedIsUnbuffered(rows: seq<Row>, size: nat, start: nat, limit: Option<nat>, fun: Visit -> bool)
    requires size > 0
    requires limit.None? || start == 0 || size >= limit.value || |rows| <= Max(start + size, limit.value)
    ensures Visits(Paged(rows, start, FirstSize(size, limit), limit), 0, fun) == Visits(Plain(rows, start, limit), 0, fun)
  {
    PagesAreThePlainPassIff(rows, size, start, limit);
  }
}
