/**
  A walk over an endless row of cells that repeats itself, stopping only at cells that have an owner.
  However the walk starts, one period's worth of stops visits every owned cell of a period exactly once.
 */
module CyclicWalk {
  import opened Net

  ghost predicate Periodic(cell: nat -> Option<nat>, period: nat) {
    0 < period && forall a: nat :: cell(a + period) == cell(a)
  }

  lemma PeriodicAt(cell: nat -> Option<nat>, period: nat, a: nat)
    requires Periodic(cell, period)
    ensures cell(a + period) == cell(a)
  {
  }

  /** The owned cells in lo..hi, and those that belong to i. */
  ghost function Owned(cell: nat -> Option<nat>, lo: nat, hi: nat): nat
    requires lo <= hi
  {
    if lo == hi then 0 else Owned(cell, lo, hi - 1) + if cell(hi - 1).Some? then 1 else 0
  }

  ghost function OwnedBy(cell: nat -> Option<nat>, i: nat, lo: nat, hi: nat): (n: nat)
    requires lo <= hi
    ensures n <= Owned(cell, lo, hi)
  {
    if lo == hi then 0 else OwnedBy(cell, i, lo, hi - 1) + if cell(hi - 1) == Some(i) then 1 else 0
  }

  lemma {:induction false} Split(cell: nat -> Option<nat>, i: nat, lo: nat, mid: nat, hi: nat)
    requires lo <= mid <= hi
    ensures Owned(cell, lo, hi) == Owned(cell, lo, mid) + Owned(cell, mid, hi)
    ensures OwnedBy(cell, i, lo, hi) == OwnedBy(cell, i, lo, mid) + OwnedBy(cell, i, mid, hi)
    decreases hi
  {
    if mid < hi {
      Split(cell, i, lo, mid, hi - 1);
    }
  }

  /** Every window of one period holds the same cells. */
  lemma {:induction false} WindowShift(cell: nat -> Option<nat>, i: nat, period: nat, lo: nat)
    requires Periodic(cell, period)
    ensures Owned(cell, lo, lo + period) == Owned(cell, 0, period)
    ensures OwnedBy(cell, i, lo, lo + period) == OwnedBy(cell, i, 0, period)
  {
    hide Periodic;
    if lo > 0 {
      var p := lo - 1;
      PeriodicAt(cell, period, p);
      WindowShift(cell, i, period, p);
      Split(cell, i, p, lo, lo + period);
      Split(cell, i, p, p + period, lo + period);
      assert Owned(cell, p, lo) == Owned(cell, p + period, lo + period);
      assert OwnedBy(cell, i, p, lo) == OwnedBy(cell, i, p + period, lo + period);
    }
  }

  /** The first owned cell of a..hi; hi when there is none. */
  ghost function First(cell: nat -> Option<nat>, a: nat, hi: nat): (r: nat)
    requires a <= hi
    ensures a <= r <= hi
    ensures r < hi ==> cell(r).Some?
    ensures Owned(cell, a, r) == 0
    decreases hi - a
  {
    if a == hi || cell(a).Some? then a
    else
      var r := First(cell, a + 1, hi);
      Split(cell, 0, a, a + 1, r);
      r
  }

  /** The walk stops within one period, provided a period owns any cell. */
  lemma StopsWithinPeriod(cell: nat -> Option<nat>, period: nat, c: nat)
    requires Periodic(cell, period) && Owned(cell, 0, period) > 0
    ensures First(cell, c, c + period) < c + period
  {
    hide Periodic;
    WindowShift(cell, 0, period, c);
  }

  /** The position after k stops from c. */
  ghost function After(cell: nat -> Option<nat>, period: nat, c: nat, k: nat): (r: nat)
    ensures c <= r
  {
    if k == 0 then c else
      var p := After(cell, period, c, k - 1);
      First(cell, p, p + period) + 1
  }

  /** The owners of the first k stops from c. */
  ghost function Stops(cell: nat -> Option<nat>, period: nat, c: nat, k: nat): seq<Option<nat>> {
    if k == 0 then [] else Stops(cell, period, c, k - 1) + [cell(After(cell, period, c, k) - 1)]
  }

  ghost function Times(s: seq<Option<nat>>, i: nat): nat {
    if s == [] then 0 else Times(s[..|s| - 1], i) + if s[|s| - 1] == Some(i) then 1 else 0
  }

  lemma OneMoreStop(cell: nat -> Option<nat>, c: nat, p: nat, q: nat, i: nat)
    requires c <= p <= q && Owned(cell, p, q) == 0 && cell(q).Some?
    ensures Owned(cell, c, q + 1) == Owned(cell, c, p) + 1
    ensures OwnedBy(cell, i, c, q + 1) == OwnedBy(cell, i, c, p) + if cell(q) == Some(i) then 1 else 0
  {
    Split(cell, i, c, p, q);
  }

  lemma TimesAppend(s: seq<Option<nat>>, x: Option<nat>, i: nat)
    ensures Times(s + [x], i) == Times(s, i) + if x == Some(i) then 1 else 0
  {
    assert (s + [x])[..|s|] == s;
  }

  /** The stops made so far are exactly the owned cells passed so far. */
  ghost predicate Covered(cell: nat -> Option<nat>, period: nat, c: nat, k: nat, i: nat) {
    var p := After(cell, period, c, k);
    && Owned(cell, c, p) == k
    && Times(Stops(cell, period, c, k), i) == OwnedBy(cell, i, c, p)
    && (k > 0 ==> p > c && cell(p - 1).Some?)
  }

  lemma StopCovers(cell: nat -> Option<nat>, period: nat, c: nat, k: nat, i: nat)
    requires Periodic(cell, period) && Owned(cell, 0, period) > 0
    requires Covered(cell, period, c, k, i)
    ensures Covered(cell, period, c, k + 1, i)
  {
    hide Periodic, Owned, OwnedBy, First, Times;
    var p := After(cell, period, c, k);
    var q := First(cell, p, p + period);
    StopsWithinPeriod(cell, period, p);
    OneMoreStop(cell, c, p, q, i);
    TimesAppend(Stops(cell, period, c, k), cell(q), i);
  }

  lemma {:induction false} StopsCoverCells(cell: nat -> Option<nat>, period: nat, c: nat, k: nat, i: nat)
    requires Periodic(cell, period) && Owned(cell, 0, period) > 0
    ensures Covered(cell, period, c, k, i)
  {
    if k > 0 {
      hide Periodic, Owned, Covered;
      StopsCoverCells(cell, period, c, k - 1, i);
      StopCovers(cell, period, c, k - 1, i);
    }
  }

  lemma LastOwned(cell: nat -> Option<nat>, c: nat, q: nat, p: nat)
    requires c <= q < p && cell(p - 1).Some?
    ensures Owned(cell, c, q) < Owned(cell, c, p)
  {
    Split(cell, 0, c, q, p);
  }

  /** In as many stops as a period has owned cells, i is visited once per cell of its own, wherever the walk began. */
  lemma FairWindow(cell: nat -> Option<nat>, period: nat, c: nat, i: nat)
    requires Periodic(cell, period) && Owned(cell, 0, period) > 0
    ensures Times(Stops(cell, period, c, Owned(cell, 0, period)), i) == OwnedBy(cell, i, 0, period)
  {
    hide Periodic;
    var k := Owned(cell, 0, period);
    var p, q := After(cell, period, c, k), c + period;
    StopsCoverCells(cell, period, c, k, i);
    WindowShift(cell, i, period, c);
    if q < p {
      LastOwned(cell, c, q, p);
      assert false;
    }
    Split(cell, i, c, p, q);
  }
}
