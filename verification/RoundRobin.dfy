/** The round-robin policies of an engine group. */
module RoundRobin {

  /** The table of slave numbers that the weights spell out. */
  function Table(weights: seq<int>): seq<nat> {
    if weights == [] then []
    else Table(weights[..|weights| - 1]) + seq(Weight(weights[|weights| - 1]), _ => |weights| - 1)
  }

  function Weight(w: int): nat { if w > 0 then w else 0 }

  /** The positive weights, added up. */
  function Total(weights: seq<int>): nat {
    if weights == [] then 0
    else
      var last := weights[|weights| - 1];
      Total(weights[..|weights| - 1]) + if last > 0 then last else 0
  }

  /** What slave `i` is due in one turn: its own weight if that is positive, and for the last slave
      also the weights beyond it. */
  function Due(weights: seq<int>, slaves: nat, i: nat): nat
    requires slaves > 0
  {
    if i + 1 < slaves then (if i < |weights| && weights[i] > 0 then weights[i] else 0)
    else if i + 1 == slaves && i < |weights| then Total(weights[i..])
    else 0
  }

  /** The last slave stands in for the ones that are missing. */
  function Clip(idx: nat, slaves: nat): nat
    requires slaves > 0
  {
    if idx >= slaves then slaves - 1 else idx
  }

  function Next(pos: int, n: nat): nat
    requires -1 <= pos && n > 0
  {
    if pos + 1 >= n then 0 else pos + 1
  }

  /** The positions of the next `count` picks. */
  function Positions(pos: int, n: nat, count: nat): (r: seq<nat>)
    requires -1 <= pos && n > 0
    ensures |r| == count && forall i :: 0 <= i < count ==> r[i] < n
    decreases count
  {
    if count == 0 then [] else [Next(pos, n)] + Positions(Next(pos, n), n, count - 1)
  }

  function Picked(table: seq<nat>, slaves: nat, positions: seq<nat>): (r: seq<nat>)
    requires slaves > 0 && forall i :: 0 <= i < |positions| ==> positions[i] < |table|
    ensures |r| == |positions|
  {
    seq(|positions|, i requires 0 <= i < |positions| => Clip(table[positions[i]], slaves))
  }

  class WeightRoundRobin {
    const rands: seq<nat>
    var pos: int

    predicate Valid()
      reads this
    {
      -1 <= pos && (pos < |rands| || pos == -1)
    }

    constructor (weights: seq<int>)
      ensures Valid() && rands == Table(weights) && pos == -1
      ensures |rands| == Total(weights) && forall a, b :: 0 <= a < b < |rands| ==> rands[a] <= rands[b]
      ensures forall i :: 0 <= i ==> multiset(rands)[i] == if i < |weights| && weights[i] > 0 then weights[i] else 0
    {
      var table: seq<nat> := [];
      for i := 0 to |weights|
        invariant table == Table(weights[..i])
      {
        ghost var before := table;
        for n := 0 to Weight(weights[i])
          invariant table == before + seq(n, _ => i)
        {
          table := table + [i];
        }
        assert weights[..i + 1][..i] == weights[..i];
      }
      assert weights[..|weights|] == weights;
      TableSpells(weights);
      rands := table;
      pos := -1;
    }

    /** The slave chosen among `slaves`; with an empty table or no slaves the code panics. */
    method Pick(slaves: nat) returns (idx: nat)
      requires Valid() && |rands| > 0 && slaves > 0
      modifies this
      ensures Valid() && pos == Next(old(pos), |rands|) && idx == Clip(rands[pos], slaves) && idx < slaves
    {
      pos := pos + 1;
      if pos >= |rands| { pos := 0; }
      idx := rands[pos];
      if idx >= slaves { idx := slaves - 1; }
    }

    /** Several picks in a row. */
    method PickMany(slaves: nat, count: nat) returns (picks: seq<nat>)
      requires Valid() && |rands| > 0 && slaves > 0
      modifies this
      ensures Valid() && picks == Picked(rands, slaves, Positions(old(pos), |rands|, count))
    {
      picks := [];
      ghost var done: seq<nat> := [];
      for k := 0 to count
        invariant Valid() && |done| == k && forall i :: 0 <= i < k ==> done[i] < |rands|
        invariant picks == Picked(rands, slaves, done)
        invariant Positions(old(pos), |rands|, count) == done + Positions(pos, |rands|, count - k)
      {
        var idx := Pick(slaves);
        picks := picks + [idx];
        done := done + [pos];
      }
      assert done + [] == done;
    }
  }

  class PlainRoundRobin {
    var pos: int

    constructor ()
      ensures pos == -1
    { pos := -1; }

    /** The number of slaves may have changed since the last pick. */
    method Pick(slaves: nat) returns (idx: nat)
      requires slaves > 0 && -1 <= pos
      modifies this
      ensures pos == idx == Next(old(pos), slaves) < slaves
    {
      pos := pos + 1;
      if pos >= slaves { pos := 0; }
      idx := pos;
    }
  }

  // ----- every window is fair -----

  /** The positions from `first` on, one by one. */
  function Up(first: nat, count: nat): (r: seq<nat>)
    ensures |r| == count && forall i :: 0 <= i < count ==> r[i] == first + i
  {
    seq(count, i => first + i)
  }

  lemma {:induction false} PositionsUp(pos: int, n: nat, count: nat)
    requires -1 <= pos && n > 0 && pos + count < n
    ensures Positions(pos, n, count) == Up(pos + 1, count)
    decreases count
  {
    if count > 0 {
      PositionsUp(pos + 1, n, count - 1);
      assert [pos + 1] + Up(pos + 2, count - 1) == Up(pos + 1, count);
    }
  }

  lemma {:induction false} PositionsConcat(pos: int, n: nat, a: nat, b: nat, mid: int)
    requires -1 <= pos && n > 0 && mid == (if a == 0 then pos else Positions(pos, n, a)[a - 1])
    ensures Positions(pos, n, a + b) == Positions(pos, n, a) + Positions(mid, n, b)
    decreases a
  {
    if a == 0 {
      assert [] + Positions(pos, n, b) == Positions(pos, n, b);
    } else {
      var next := Next(pos, n);
      assert Positions(pos, n, a) == [next] + Positions(next, n, a - 1);
      if a > 1 { assert Positions(pos, n, a)[a - 1] == Positions(next, n, a - 1)[a - 2]; }
      PositionsConcat(next, n, a - 1, b, mid);
      assert a + b - 1 == a - 1 + b;
    }
  }

  /** A full turn runs to the end and starts over up to where it began. */
  lemma FullTurn(pos: int, n: nat)
    requires 0 <= pos < n
    ensures Positions(pos, n, n) == Up(pos + 1, n - 1 - pos) + Up(0, pos + 1)
  {
    var a := n - 1 - pos;
    PositionsUp(pos, n, a);
    FromTheTop(n - 1, n, pos + 1);
    assert a > 0 ==> Positions(pos, n, a)[a - 1] == n - 1;
    PositionsConcat(pos, n, a, pos + 1, n - 1);
    hide Positions, Up;
  }

  /** After the last position, or one beyond, come the first ones. */
  lemma FromTheTop(pos: int, n: nat, count: nat)
    requires 0 < count <= n && (pos == -1 || pos >= n - 1)
    ensures Positions(pos, n, count) == Up(0, count)
  {
    PositionsUp(0, n, count - 1);
    assert [0] + Up(1, count - 1) == Up(0, count);
  }

  /** How often slave `i` is due: its weight, and for the last slave also the weights beyond. */
  function Share(weights: seq<int>, slaves: nat, i: nat): nat
    requires slaves > 0
  {
    if weights == [] then 0
    else
      var n := |weights| - 1;
      Share(weights[..n], slaves, i) + (if Clip(n, slaves) == i then Weight(weights[n]) else 0)
  }

  function Clipped(table: seq<nat>, slaves: nat): (r: seq<nat>)
    requires slaves > 0
    ensures |r| == |table|
  {
    seq(|table|, i requires 0 <= i < |table| => Clip(table[i], slaves))
  }

  lemma {:induction false} SameCount(n: nat, c: nat, i: nat)
    ensures multiset(seq(n, _ => c))[i] == if i == c then n else 0
    decreases n
  {
    if n > 0 {
      SameCount(n - 1, c, i);
      assert seq(n, _ => c) == seq(n - 1, _ => c) + [c];
    }
  }

  lemma {:induction false} TableShares(weights: seq<int>, slaves: nat, i: nat)
    requires slaves > 0
    ensures multiset(Clipped(Table(weights), slaves))[i] == Share(weights, slaves, i)
    decreases |weights|
  {
    if weights != [] {
      var n := |weights| - 1;
      var before, w := Table(weights[..n]), Weight(weights[n]);
      TableShares(weights[..n], slaves, i);
      SameCount(w, Clip(n, slaves), i);
      assert Clipped(Table(weights), slaves) == Clipped(before, slaves) + seq(w, _ => Clip(n, slaves));
    }
  }

  lemma RotationCounts(table: seq<nat>, slaves: nat, pos: int)
    requires slaves > 0 && -1 <= pos < |table| && table != []
    ensures multiset(Picked(table, slaves, Positions(pos, |table|, |table|))) == multiset(Clipped(table, slaves))
  {
    hide Picked, Clipped;
    if pos == -1 {
      FromTheTop(-1, |table|, |table|);
      PickedUp(table, slaves, 0, |table|);
    } else {
      OneTurn(table, slaves, pos);
      Rotated(Clipped(table, slaves), pos + 1);
    }
    hide Positions;
  }

  /** What a full turn picks. */
  lemma OneTurn(table: seq<nat>, slaves: nat, pos: nat)
    requires slaves > 0 && pos < |table|
    ensures
      var n, all := |table|, Clipped(table, slaves);
      Picked(table, slaves, Positions(pos, n, n)) == all[pos + 1..n] + all[0..pos + 1]
  {
    var n := |table|;
    FullTurn(pos, n);
    var late, early := Up(pos + 1, n - 1 - pos), Up(0, pos + 1);
    PickedUp(table, slaves, pos + 1, n - 1 - pos);
    PickedUp(table, slaves, 0, pos + 1);
    PickedConcat(table, slaves, late, early);
    hide Positions, Picked, Clipped, Up;
  }

  lemma PickedUp(table: seq<nat>, slaves: nat, first: nat, count: nat)
    requires slaves > 0 && first + count <= |table|
    ensures Picked(table, slaves, Up(first, count)) == Clipped(table, slaves)[first..first + count]
    ensures first == 0 && count == |table| ==> Picked(table, slaves, Up(first, count)) == Clipped(table, slaves)
  {}

  lemma PickedConcat(table: seq<nat>, slaves: nat, a: seq<nat>, b: seq<nat>)
    requires slaves > 0
    requires (forall i :: 0 <= i < |a| ==> a[i] < |table|) && (forall i :: 0 <= i < |b| ==> b[i] < |table|)
    ensures Picked(table, slaves, a + b) == Picked(table, slaves, a) + Picked(table, slaves, b)
  {}

  lemma Rotated(s: seq<nat>, k: nat)
    requires k <= |s|
    ensures multiset(s[k..|s|] + s[0..k]) == multiset(s)
  {
    assert s == s[0..k] + s[k..|s|];
  }

  lemma {:induction false} TotalSuffix(weights: seq<int>, i: nat)
    requires i < |weights|
    ensures Total(weights[i..]) == Total(weights[i..|weights| - 1]) + if weights[|weights| - 1] > 0 then weights[|weights| - 1] else 0
  {
    assert weights[i..][..|weights[i..]| - 1] == weights[i..|weights| - 1];
  }

  lemma {:induction false} ShareIsDue(weights: seq<int>, slaves: nat, i: nat)
    requires slaves > 0
    ensures Share(weights, slaves, i) == Due(weights, slaves, i)
    decreases |weights|
  {
    if weights != [] {
      var n := |weights| - 1;
      ShareIsDue(weights[..n], slaves, i);
      if i + 1 == slaves && i <= n {
        TotalSuffix(weights, i);
        if i < n { assert weights[..n][i..] == weights[i..n]; } else { assert weights[i..n] == []; }
      }
    }
  }

  lemma {:induction false} TableLength(weights: seq<int>)
    ensures |Table(weights)| == Total(weights)
    decreases |weights|
  {
    if weights != [] { TableLength(weights[..|weights| - 1]); }
  }

  lemma {:induction false} TableSorted(weights: seq<int>)
    ensures forall a :: 0 <= a < |Table(weights)| ==> Table(weights)[a] < |weights|
    ensures forall a, b :: 0 <= a < b < |Table(weights)| ==> Table(weights)[a] <= Table(weights)[b]
    decreases |weights|
  {
    if weights != [] { TableSorted(weights[..|weights| - 1]); }
  }

  lemma {:induction false} TableCounts(weights: seq<int>, i: nat)
    ensures multiset(Table(weights))[i] == if i < |weights| && weights[i] > 0 then weights[i] else 0
    decreases |weights|
  {
    if weights != [] {
      TableCounts(weights[..|weights| - 1], i);
      SameCount(Weight(weights[|weights| - 1]), |weights| - 1, i);
    }
  }

  /** The table holds each number as often as its weight says, in order. */
  lemma TableSpells(weights: seq<int>)
    ensures |Table(weights)| == Total(weights)
    ensures forall a, b :: 0 <= a < b < |Table(weights)| ==> Table(weights)[a] <= Table(weights)[b]
    ensures forall i :: 0 <= i ==> multiset(Table(weights))[i] == if i < |weights| && weights[i] > 0 then weights[i] else 0
  {
    TableLength(weights);
    TableSorted(weights);
    forall i: int | 0 <= i
      ensures multiset(Table(weights))[i] == if i < |weights| && weights[i] > 0 then weights[i] else 0
    {
      TableCounts(weights, i);
    }
  }

  /** From any position, as many picks in a row as the positive weights add up to choose each slave
      exactly as often as it is due. */
  lemma EveryWindowIsFair(weights: seq<int>, slaves: nat, pos: int, i: nat)
    requires slaves > 0 && -1 <= pos < Total(weights) && Total(weights) > 0
    ensures
      var n := Total(weights);
      n == |Table(weights)| && multiset(Picked(Table(weights), slaves, Positions(pos, n, n)))[i] == Due(weights, slaves, i)
  {
    TableLength(weights);
    RotationCounts(Table(weights), slaves, pos);
    TableShares(weights, slaves, i);
    ShareIsDue(weights, slaves, i);
  }

  /** With a slave for every weight, each is due its own weight, or nothing. */
  lemma ShareIsWeight(weights: seq<int>, slaves: nat, i: nat)
    requires slaves > 0 && slaves >= |weights|
    ensures Share(weights, slaves, i) == Due(weights, slaves, i) == if i < |weights| && weights[i] > 0 then weights[i] else 0
  {
    ShareIsDue(weights, slaves, i);
    if i + 1 == slaves && i < |weights| { assert weights[i..] == [weights[i]] && [weights[i]][..0] == [] && Total([]) == 0; }
  }

  /** The window after any number of picks. */
  lemma EveryReachableWindowIsFair(weights: seq<int>, slaves: nat, before: nat, i: nat)
    requires slaves > 0 && Total(weights) > 0
    ensures
      var n := Total(weights);
      && n == |Table(weights)|
      && multiset(Picked(Table(weights), slaves, Positions(-1, n, before + n)[before..]))[i] == Due(weights, slaves, i)
  {
    TableLength(weights);
    var n := Total(weights);
    var pos := if before == 0 then -1 else Positions(-1, n, before)[before - 1];
    PositionsConcat(-1, n, before, n, pos);
    assert Positions(-1, n, before + n)[before..] == Positions(pos, n, n);
    EveryWindowIsFair(weights, slaves, pos, i);
  }

  /** Plain round robin picks each of n slaves once in every n picks, whatever was picked before. */
  lemma PlainWindowIsFair(slaves: nat, pos: int, before: nat, i: nat)
    requires -1 <= pos && i < slaves
    ensures multiset(Positions(pos, slaves, before + slaves)[before..])[i] == 1
  {
    var now := if before == 0 then pos else Positions(pos, slaves, before)[before - 1];
    PositionsConcat(pos, slaves, before, slaves, now);
    assert Positions(pos, slaves, before + slaves)[before..] == Positions(now, slaves, slaves);
    PlainTurn(slaves, now, i);
  }

  lemma PlainTurn(n: nat, pos: int, i: nat)
    requires -1 <= pos && i < n
    ensures multiset(Positions(pos, n, n))[i] == 1
  {
    if pos < n { RotationCounts(Up(0, n), n, pos); } else { FromTheTop(pos, n, n); RotationCounts(Up(0, n), n, -1); }
    PickedFromUp(n, Positions(pos, n, n));
    PickedFromUp(n, Up(0, n));
    assert Clipped(Up(0, n), n) == Up(0, n);
    hide Positions, Picked, Clipped;
    UpCount(n, i);
  }

  lemma PickedFromUp(n: nat, positions: seq<nat>)
    requires n > 0 && forall i :: 0 <= i < |positions| ==> positions[i] < n
    ensures Picked(Up(0, n), n, positions) == positions
  {}

  lemma {:induction false} UpCount(n: nat, i: nat)
    ensures multiset(Up(0, n))[i] == if i < n then 1 else 0
    decreases n
  {
    if n > 0 {
      UpCount(n - 1, i);
      assert Up(0, n) == Up(0, n - 1) + [n - 1];
    }
  }
}
