/**
  Weighted round robin: a cursor over the backends and a weight level that drops by the gcd each round.
  Calls exclude each other. The health flags may change between calls; that they may also change while a call's loop
  runs is taken up after the fairness results.
 */
module Wrr {
  import opened Net
  import opened Counting
  import opened Backends
  import opened Primes
  import opened GcdReal
  import opened CyclicWalk

  /** What the scheduler computes once from the weights. */
  datatype Wheel = Wheel(weights: seq<real>, gcd: real, max: real)
  {
    ghost predicate Valid() {
      weights != [] && gcd > 0.0 && max > 0.0
    }

    function Size(): nat {
      |weights|
    }
  }

  /** The level of round k: it drops by the gcd and starts over when it would reach zero. */
  ghost function Level(wheel: Wheel, k: nat): real {
    if k == 0 then wheel.max
    else if Level(wheel, k - 1) - wheel.gcd <= 0.0 then wheel.max
    else Level(wheel, k - 1) - wheel.gcd
  }

  ghost function DistanceToZero(level: real, gcd: real): nat
    requires gcd > 0.0
  {
    if level <= 0.0 then 0 else (level / gcd).Floor + 1
  }

  lemma DistanceDrops(level: real, gcd: real)
    requires gcd > 0.0 && level > 0.0
    ensures DistanceToZero(level - gcd, gcd) < DistanceToZero(level, gcd)
  {
    QuotientBounds(level, gcd);
    if level - gcd > 0.0 {
      var x, y := level / gcd, (level - gcd) / gcd;
      assert (x - 1.0) * gcd == level - gcd;
      CancelFactor(x - 1.0, y, gcd);
    }
  }

  /** How many rounds a full descent from this level takes. */
  ghost function RoundsFrom(level: real, gcd: real): nat
    requires gcd > 0.0
    decreases DistanceToZero(level, gcd)
  {
    if level <= 0.0 then 0
    else
      DistanceDrops(level, gcd);
      1 + RoundsFrom(level - gcd, gcd)
  }

  ghost function Rounds(wheel: Wheel): nat
    requires wheel.Valid()
  {
    RoundsFrom(wheel.max, wheel.gcd)
  }

  lemma {:induction false} RoundsDescend(wheel: Wheel, k: nat)
    requires wheel.Valid() && k < Rounds(wheel)
    ensures Level(wheel, k) > 0.0
    ensures Rounds(wheel) == k + RoundsFrom(Level(wheel, k), wheel.gcd)
  {
    if k > 0 {
      RoundsDescend(wheel, k - 1);
    }
  }

  /** The levels repeat after one descent. */
  lemma {:induction false} LevelsRepeat(wheel: Wheel, k: nat)
    requires wheel.Valid()
    ensures Level(wheel, k + Rounds(wheel)) == Level(wheel, k)
  {
    if k == 0 {
      var last := Rounds(wheel) - 1;
      RoundsDescend(wheel, last);
    } else {
      LevelsRepeat(wheel, k - 1);
    }
  }

  /** The lowest level of a descent is its last, and every level is the maximum minus whole gcds. */
  lemma {:induction false} LevelsDescend(wheel: Wheel, j: nat, k: nat)
    requires wheel.Valid() && j <= k < Rounds(wheel)
    ensures Level(wheel, k) <= Level(wheel, j)
    ensures Level(wheel, k) == wheel.max - k as real * wheel.gcd > 0.0
  {
    RoundsDescend(wheel, k);
    if k > 0 {
      RoundsDescend(wheel, k - 1);
      LevelsDescend(wheel, if j < k then j else k - 1, k - 1);
      assert k as real * wheel.gcd == (k - 1) as real * wheel.gcd + wheel.gcd;
    }
  }

  function CeilQuotient(x: real, y: real): int
    requires y > 0.0
  {
    -((-(x / y)).Floor)
  }

  lemma CeilUnique(x: real, y: real, n: int)
    requires y > 0.0 && (n - 1) as real * y < x <= n as real * y
    ensures CeilQuotient(x, y) == n
  {
    var q := x / y;
    assert q * y == x;
    OrderKept((n - 1) as real, q, y);
    OrderKept(q, n as real, y);
    CeilBetween(q, n);
  }

  lemma CeilBetween(q: real, n: int)
    requires (n - 1) as real < q <= n as real
    ensures -((-q).Floor) == n
  {
  }

  lemma OrderKept(a: real, b: real, y: real)
    requires y > 0.0
    ensures a * y < b * y ==> a < b
    ensures a * y <= b * y ==> a <= b
  {
    if b <= a { TimesMonotone(b, a, y); }
    if b < a && a * y == b * y { CancelFactor(a, b, y); }
  }

  lemma TimesMonotone(a: real, b: real, y: real)
    requires y > 0.0 && a <= b
    ensures a * y <= b * y
  {
  }

  /** The last level of a descent, in closed form. */
  function LowestLevel(wheel: Wheel): real
    requires wheel.gcd > 0.0
  {
    wheel.max - (CeilQuotient(wheel.max, wheel.gcd) - 1) as real * wheel.gcd
  }

  /** A descent has max/gcd rounds, rounded up, and the last is at the lowest level. */
  lemma RoundsExact(wheel: Wheel)
    requires wheel.Valid()
    ensures Rounds(wheel) == CeilQuotient(wheel.max, wheel.gcd) > 0
    ensures Level(wheel, Rounds(wheel) - 1) == LowestLevel(wheel)
  {
    var l := Rounds(wheel);
    assert l > 0;
    RoundsDescend(wheel, l - 1);
    LevelsDescend(wheel, 0, l - 1);
    assert RoundsFrom(Level(wheel, l - 1) - wheel.gcd, wheel.gcd) == 0;
    assert l as real * wheel.gcd == (l - 1) as real * wheel.gcd + wheel.gcd;
    CeilUnique(wheel.max, wheel.gcd, l);
  }

  /** The round of cell a among n backends; its backend is the one whose turn it is. */
  ghost function Row(a: nat, n: nat): nat
    requires 0 < n
  {
    a / n
  }

  lemma CellPosition(n: nat, k: nat, i: nat)
    requires i < n
    ensures Row(n * k + i, n) == k && TurnIndex(n * k + i, n) == i
  {
    DivModUnique(n * k + i, n, k, i);
  }

  /** A cell is owned when its backend is up and heavy enough for its round. */
  ghost function CellAt(wheel: Wheel, alive: seq<bool>, a: nat): Option<nat>
    requires wheel.Valid() && |alive| == wheel.Size()
  {
    var i := TurnIndex(a, wheel.Size());
    if alive[i] && wheel.weights[i] >= Level(wheel, Row(a, wheel.Size())) then Some(i) else None
  }

  ghost function Cells(wheel: Wheel, alive: seq<bool>): nat -> Option<nat>
    requires wheel.Valid() && |alive| == wheel.Size()
  {
    a => CellAt(wheel, alive, a)
  }

  ghost function Period(wheel: Wheel): nat
    requires wheel.Valid()
  {
    wheel.Size() * Rounds(wheel)
  }

  lemma CellsArePeriodic(wheel: Wheel, alive: seq<bool>)
    requires wheel.Valid() && |alive| == wheel.Size()
    ensures Periodic(Cells(wheel, alive), Period(wheel))
  {
    var n, l := wheel.Size(), Rounds(wheel);
    MulGrows(n, l);
    forall a: nat
      ensures Cells(wheel, alive)(a + Period(wheel)) == Cells(wheel, alive)(a)
    {
      var k, i := Row(a, n), TurnIndex(a, n);
      assert a == n * k + i;
      assert a + n * l == n * (k + l) + i;
      CellPosition(n, k + l, i);
      LevelsRepeat(wheel, k);
    }
  }

  /** The level the scheduler holds when its counter shows c. */
  ghost function LevelHeld(wheel: Wheel, c: nat): real
    requires wheel.Valid()
  {
    if c == 0 then 0.0 else Level(wheel, Row(c - 1, wheel.Size()))
  }

  /** The level update at the head of the loop moves on to the level of the cell at hand. */
  lemma LevelUpdate(wheel: Wheel, c: nat)
    requires wheel.Valid()
    ensures var cw := LevelHeld(wheel, c);
      var cw' := if c % wheel.Size() == 0 then (if cw - wheel.gcd <= 0.0 then wheel.max else cw - wheel.gcd) else cw;
      cw' == Level(wheel, Row(c, wheel.Size())) == LevelHeld(wheel, c + 1)
  {
    var n := wheel.Size();
    var q, r := c / n, c % n;
    if c == 0 {
      DivModUnique(0, n, 0, 0);
    } else if r == 0 {
      assert c - 1 == n * (q - 1) + (n - 1);
      assert q > 0;
      DivModUnique(c - 1, n, q - 1, n - 1);
    } else {
      DivModUnique(c - 1, n, q, r - 1);
    }
  }

  /** Some live backend is heavy enough for the lowest level. */
  ghost predicate Reachable(wheel: Wheel, alive: seq<bool>)
    requires wheel.Valid() && |alive| == wheel.Size()
  {
    exists i :: 0 <= i < wheel.Size() && alive[i] && wheel.weights[i] >= LowestLevel(wheel)
  }

  lemma {:induction false} NoneOwned(cell: nat -> Option<nat>, lo: nat, hi: nat)
    requires lo <= hi && forall a: nat :: lo <= a < hi ==> cell(a) == None
    ensures Owned(cell, lo, hi) == 0
    decreases hi
  {
    if lo < hi {
      NoneOwned(cell, lo, hi - 1);
    }
  }

  lemma OwnedCell(cell: nat -> Option<nat>, lo: nat, a: nat, hi: nat)
    requires lo <= a < hi && cell(a).Some?
    ensures Owned(cell, lo, hi) > 0
  {
    Split(cell, 0, lo, a + 1, hi);
  }

  lemma ReachableOwned(wheel: Wheel, alive: seq<bool>, i: nat)
    requires wheel.Valid() && |alive| == wheel.Size()
    requires i < wheel.Size() && alive[i] && wheel.weights[i] >= LowestLevel(wheel)
    ensures Owned(Cells(wheel, alive), 0, Period(wheel)) > 0
  {
    var n, l := wheel.Size(), Rounds(wheel);
    var a := n * (l - 1) + i;
    assert n * l == n * (l - 1) + n;
    CellPosition(n, l - 1, i);
    RoundsExact(wheel);
    hide Row, TurnIndex, Level, Owned, LowestLevel;
    OwnedCell(Cells(wheel, alive), 0, a, n * l);
  }

  lemma UnreachableCell(wheel: Wheel, alive: seq<bool>, a: nat)
    requires wheel.Valid() && |alive| == wheel.Size() && !Reachable(wheel, alive)
    ensures CellAt(wheel, alive, a) == None
  {
    LevelAtLeastLowest(wheel, Row(a, wheel.Size()));
  }

  /**
    The loop ends exactly when some live backend reaches the lowest level: then every period holds an owned
    cell, and otherwise no cell is ever owned, so the loop never returns.
   */
  lemma LoopEndsExactly(wheel: Wheel, alive: seq<bool>)
    requires wheel.Valid() && |alive| == wheel.Size()
    ensures Reachable(wheel, alive) <==> Owned(Cells(wheel, alive), 0, Period(wheel)) > 0
    ensures !Reachable(wheel, alive) ==> forall a: nat :: Cells(wheel, alive)(a) == None
  {
    if Reachable(wheel, alive) {
      var i :| 0 <= i < wheel.Size() && alive[i] && wheel.weights[i] >= LowestLevel(wheel);
      ReachableOwned(wheel, alive, i);
    } else {
      hide Reachable, CellAt;
      forall a: nat
        ensures Cells(wheel, alive)(a) == None
      {
        UnreachableCell(wheel, alive, a);
      }
      NoneOwned(Cells(wheel, alive), 0, Period(wheel));
    }
  }

  lemma {:induction false} LevelAtLeastLowest(wheel: Wheel, k: nat)
    requires wheel.Valid()
    ensures Level(wheel, k) >= LowestLevel(wheel)
  {
    var l := Rounds(wheel);
    RoundsExact(wheel);
    if k < l {
      LevelsDescend(wheel, k, l - 1);
    } else {
      LevelsRepeat(wheel, k - l);
      LevelAtLeastLowest(wheel, k - l);
    }
  }

  /** A call can complete: nobody or one backend is up, or the loop has something to find. */
  ghost predicate Servable(wheel: Wheel, alive: seq<bool>)
    requires wheel.Valid() && |alive| == wheel.Size()
  {
    |AliveBelow(alive, |alive|)| <= 1 || Reachable(wheel, alive)
  }

  /** One call when the counter shows c: the backend chosen and the new counter. */
  ghost function Serve(wheel: Wheel, alive: seq<bool>, c: nat): (Option<nat>, nat)
    requires wheel.Valid() && |alive| == wheel.Size()
  {
    var live := AliveBelow(alive, |alive|);
    if live == [] then (None, c)
    else if |live| == 1 then (Some(live[0]), c)
    else
      var cell := Cells(wheel, alive);
      var a := First(cell, c, c + Period(wheel));
      (cell(a), a + 1)
  }

  /** The choices of k calls in a row, and the counter after them. */
  ghost function ServeRun(wheel: Wheel, alive: seq<bool>, c: nat, k: nat): (seq<Option<nat>>, nat)
    requires wheel.Valid() && |alive| == wheel.Size()
  {
    if k == 0 then ([], c)
    else
      var (picks, c1) := ServeRun(wheel, alive, c, k - 1);
      var (pick, c2) := Serve(wheel, alive, c1);
      (picks + [pick], c2)
  }

  /** In how many of the first k rounds backend i is heavy enough. */
  ghost function QuotaUpTo(wheel: Wheel, i: nat, k: nat): nat
    requires i < wheel.Size()
  {
    if k == 0 then 0 else QuotaUpTo(wheel, i, k - 1) + if wheel.weights[i] >= Level(wheel, k - 1) then 1 else 0
  }

  ghost function Quota(wheel: Wheel, i: nat): nat
    requires wheel.Valid() && i < wheel.Size()
  {
    QuotaUpTo(wheel, i, Rounds(wheel))
  }

  /** The quotas of the live backends below m together. */
  ghost function Window(wheel: Wheel, alive: seq<bool>, m: nat): nat
    requires wheel.Valid() && |alive| == wheel.Size() && m <= wheel.Size()
  {
    if m == 0 then 0 else Window(wheel, alive, m - 1) + if alive[m - 1] then Quota(wheel, m - 1) else 0
  }

  lemma {:induction false} RunIsWalk(wheel: Wheel, alive: seq<bool>, c: nat, k: nat)
    requires wheel.Valid() && |alive| == wheel.Size() && |AliveBelow(alive, |alive|)| >= 2
    ensures ServeRun(wheel, alive, c, k).0 == Stops(Cells(wheel, alive), Period(wheel), c, k)
    ensures ServeRun(wheel, alive, c, k).1 == After(Cells(wheel, alive), Period(wheel), c, k)
  {
    hide Cells, Period, First, AliveBelow;
    if k > 0 {
      var j := k - 1;
      RunIsWalk(wheel, alive, c, j);
      assert ServeRun(wheel, alive, c, j + 1).1 == Serve(wheel, alive, ServeRun(wheel, alive, c, j).1).1;
    }
  }

  lemma {:induction false} LoneRun(wheel: Wheel, alive: seq<bool>, c: nat, k: nat, i: nat)
    requires wheel.Valid() && |alive| == wheel.Size() && |AliveBelow(alive, |alive|)| == 1
    ensures Times(ServeRun(wheel, alive, c, k).0, i) == if i == AliveBelow(alive, |alive|)[0] then k else 0
    ensures ServeRun(wheel, alive, c, k).1 == c
  {
    if k > 0 {
      LoneRun(wheel, alive, c, k - 1, i);
      TimesAppend(ServeRun(wheel, alive, c, k - 1).0, Some(AliveBelow(alive, |alive|)[0]), i);
    }
  }

  lemma CellOfBackend(wheel: Wheel, alive: seq<bool>, i: nat, k: nat, j: nat)
    requires wheel.Valid() && |alive| == wheel.Size() && i < wheel.Size() && j < wheel.Size()
    ensures Cells(wheel, alive)(wheel.Size() * k + j) == Some(i) <==>
      i == j && alive[i] && wheel.weights[i] >= Level(wheel, k)
  {
    hide Level, Row, TurnIndex;
    CellPosition(wheel.Size(), k, j);
  }

  /** Of the first j cells of row k backend i owns the one in its own column, if it is up and heavy enough. */
  lemma {:induction false} RowOfBackend(wheel: Wheel, alive: seq<bool>, i: nat, k: nat, lo: nat, j: nat)
    requires wheel.Valid() && |alive| == wheel.Size() && i < wheel.Size() && j <= wheel.Size()
    requires lo == wheel.Size() * k
    ensures OwnedBy(Cells(wheel, alive), i, lo, lo + j)
      == if i < j && alive[i] && wheel.weights[i] >= Level(wheel, k) then 1 else 0
  {
    hide Level, Cells;
    if j > 0 {
      RowOfBackend(wheel, alive, i, k, lo, j - 1);
      CellOfBackend(wheel, alive, i, k, j - 1);
    }
  }

  /** Backend i owns one cell in each row where it is heavy enough, if it is up. */
  lemma {:induction false} CellsOfBackend(wheel: Wheel, alive: seq<bool>, i: nat, k: nat)
    requires wheel.Valid() && |alive| == wheel.Size() && i < wheel.Size()
    ensures OwnedBy(Cells(wheel, alive), i, 0, wheel.Size() * k) == if alive[i] then QuotaUpTo(wheel, i, k) else 0
  {
    hide Level, Cells;
    var n := wheel.Size();
    if k > 0 {
      var lo := n * (k - 1);
      assert n * k == lo + n;
      CellsOfBackend(wheel, alive, i, k - 1);
      RowOfBackend(wheel, alive, i, k - 1, lo, n);
      Split(Cells(wheel, alive), i, 0, lo, lo + n);
    }
  }

  /** The owned cells below hi that belong to backends below m. */
  ghost function OwnedSum(cell: nat -> Option<nat>, m: nat, hi: nat): nat {
    if m == 0 then 0 else OwnedSum(cell, m - 1, hi) + OwnedBy(cell, m - 1, 0, hi)
  }

  lemma {:induction false} OwnedSumStep(cell: nat -> Option<nat>, m: nat, hi: nat)
    ensures OwnedSum(cell, m, hi + 1) == OwnedSum(cell, m, hi) + if cell(hi).Some? && cell(hi).value < m then 1 else 0
  {
    if m > 0 {
      OwnedSumStep(cell, m - 1, hi);
    }
  }

  lemma {:induction false} OwnedSumZero(cell: nat -> Option<nat>, m: nat)
    ensures OwnedSum(cell, m, 0) == 0
  {
    if m > 0 {
      OwnedSumZero(cell, m - 1);
    }
  }

  lemma {:induction false} OwnedIsSum(wheel: Wheel, alive: seq<bool>, hi: nat)
    requires wheel.Valid() && |alive| == wheel.Size()
    ensures Owned(Cells(wheel, alive), 0, hi) == OwnedSum(Cells(wheel, alive), wheel.Size(), hi)
  {
    if hi == 0 {
      OwnedSumZero(Cells(wheel, alive), wheel.Size());
    } else {
      OwnedIsSum(wheel, alive, hi - 1);
      OwnedSumStep(Cells(wheel, alive), wheel.Size(), hi - 1);
    }
  }

  lemma {:induction false} WindowIsSum(wheel: Wheel, alive: seq<bool>, m: nat)
    requires wheel.Valid() && |alive| == wheel.Size() && m <= wheel.Size()
    ensures Window(wheel, alive, m) == OwnedSum(Cells(wheel, alive), m, Period(wheel))
  {
    if m > 0 {
      WindowIsSum(wheel, alive, m - 1);
      CellsOfBackend(wheel, alive, m - 1, Rounds(wheel));
    }
  }

  lemma {:induction false} LoneWindow(wheel: Wheel, alive: seq<bool>, m: nat, i: nat)
    requires wheel.Valid() && |alive| == wheel.Size() && m <= wheel.Size()
    requires i < wheel.Size() && forall j :: 0 <= j < |alive| ==> (alive[j] <==> j == i)
    ensures Window(wheel, alive, m) == if i < m then Quota(wheel, i) else 0
  {
    if m > 0 {
      LoneWindow(wheel, alive, m - 1, i);
    }
  }

  lemma {:induction false} NoWindow(wheel: Wheel, alive: seq<bool>, m: nat)
    requires wheel.Valid() && |alive| == wheel.Size() && m <= wheel.Size()
    requires forall j :: 0 <= j < |alive| ==> !alive[j]
    ensures Window(wheel, alive, m) == 0
  {
    if m > 0 {
      NoWindow(wheel, alive, m - 1);
    }
  }

  lemma WalkFairness(wheel: Wheel, alive: seq<bool>, c: nat, i: nat)
    requires wheel.Valid() && |alive| == wheel.Size() && i < wheel.Size()
    requires |AliveBelow(alive, |alive|)| >= 2 && Reachable(wheel, alive)
    ensures Times(ServeRun(wheel, alive, c, Window(wheel, alive, wheel.Size())).0, i)
      == if alive[i] then Quota(wheel, i) else 0
  {
    var cell, period, n := Cells(wheel, alive), Period(wheel), wheel.Size();
    LoopEndsExactly(wheel, alive);
    CellsArePeriodic(wheel, alive);
    WindowIsSum(wheel, alive, n);
    OwnedIsSum(wheel, alive, period);
    CellsOfBackend(wheel, alive, i, Rounds(wheel));
    RunIsWalk(wheel, alive, c, Window(wheel, alive, n));
    hide *;
    FairWindow(cell, period, c, i);
  }

  lemma LoneFairness(wheel: Wheel, alive: seq<bool>, c: nat, i: nat)
    requires wheel.Valid() && |alive| == wheel.Size() && i < wheel.Size()
    requires |AliveBelow(alive, |alive|)| == 1
    ensures Times(ServeRun(wheel, alive, c, Window(wheel, alive, wheel.Size())).0, i)
      == if alive[i] then Quota(wheel, i) else 0
  {
    var only := AliveBelow(alive, |alive|)[0];
    assert forall j: nat :: j < |alive| && alive[j] ==> j in AliveBelow(alive, |alive|);
    hide AliveBelow, Quota, Window, Times, ServeRun;
    LoneWindow(wheel, alive, wheel.Size(), only);
    LoneRun(wheel, alive, c, Quota(wheel, only), i);
  }

  lemma NobodyFairness(wheel: Wheel, alive: seq<bool>, c: nat, i: nat)
    requires wheel.Valid() && |alive| == wheel.Size() && i < wheel.Size()
    requires AliveBelow(alive, |alive|) == []
    ensures Times(ServeRun(wheel, alive, c, Window(wheel, alive, wheel.Size())).0, i)
      == if alive[i] then Quota(wheel, i) else 0
  {
    hide AliveBelow, Quota;
    NoWindow(wheel, alive, wheel.Size());
  }

  /**
    Exact fairness from every reachable state: with fixed health flags, as many consecutive calls as the live
    quotas add up to pick each live backend exactly its quota of times, whatever the counter c shows at the start.
   */
  lemma ExactFairness(wheel: Wheel, alive: seq<bool>, c: nat, i: nat)
    requires wheel.Valid() && |alive| == wheel.Size() && i < wheel.Size() && Servable(wheel, alive)
    ensures Times(ServeRun(wheel, alive, c, Window(wheel, alive, wheel.Size())).0, i)
      == if alive[i] then Quota(wheel, i) else 0
  {
    hide Reachable, AliveBelow, Quota, Window, Times, ServeRun;
    if AliveBelow(alive, |alive|) == [] {
      NobodyFairness(wheel, alive, c, i);
    } else if |AliveBelow(alive, |alive|)| == 1 {
      LoneFairness(wheel, alive, c, i);
    } else {
      WalkFairness(wheel, alive, c, i);
    }
  }

  // ----- weights on a grid -----

  function NewWheel(weights: seq<real>): Wheel {
    var g := GcdFold(weights);
    Wheel(weights, if g > 0.0 then g else 1.0, MaxFold(weights))
  }

  /** On the grid: the gcd divides every weight, and weight i is x gcds out of the y gcds of the maximum. */
  lemma GridWheel(weights: seq<real>, units: seq<nat>, unit: real, i: nat)
    requires OnGrid(weights, units, unit) && i < |units|
    ensures NewWheel(weights).Valid()
    ensures var g, w := GcdAll(units), NewWheel(weights);
      && 0 < g && units[i] == g * (units[i] / g) && MaxAll(units) == g * (MaxAll(units) / g)
      && 1 <= units[i] / g <= MaxAll(units) / g
      && w.gcd == Scale(g, unit) && w.max == Scale(g * (MaxAll(units) / g), unit)
      && w.weights[i] == Scale(g * (units[i] / g), unit)
  {
    var g, top := GcdAll(units), MaxAll(units);
    FoldsOnGrid(weights, units, unit);
    GcdAllDivisors(units, g);
    MultipleOf(g, g, 1);
    var m: nat :| m < |units| && units[m] == top;
    assert Multiple(units[i], g) && Multiple(units[m], g);
    ExactQuotient(units[i], g);
    ExactQuotient(top, g);
    ScaleBounds(g, unit);
    ScaleBounds(top, unit);
    assert units[i] <= top;
    QuotientMonotone(units[i] / g, top / g, g);
  }

  lemma ExactQuotient(x: nat, g: nat)
    requires x > 0 && Multiple(x, g)
    ensures g > 0 && x == g * (x / g) && x / g >= 1
  {
    var k: nat :| x == g * k;
    if g > 0 { DivModUnique(x, g, k, 0); }
  }

  lemma QuotientMonotone(x: nat, y: nat, g: nat)
    requires g > 0 && g * x <= g * y
    ensures x <= y
  {
    if x > y {
      assert g * (x - y) == g * x - g * y;
      MulGrows(g, x - y);
      assert false;
    }
  }

  lemma GridStep(g: nat, j: nat, unit: real)
    requires unit > 0.0 && j > 0
    ensures Scale(g * j, unit) - Scale(g, unit) == Scale(g * (j - 1), unit)
  {
    assert g * j == g * (j - 1) + g;
    assert (g * j) as real == (g * (j - 1)) as real + g as real;
    Spread(1.0, (g * (j - 1)) as real, g as real, unit);
  }

  lemma GridPositive(g: nat, j: nat, unit: real)
    requires unit > 0.0 && g > 0
    ensures Scale(g * j, unit) > 0.0 <==> j > 0
  {
    ScaleBounds(g * j, unit);
    if j > 0 { MulGrows(g, j); } else { assert g * 0 == 0; }
  }

  lemma {:induction false} GridRounds(g: nat, j: nat, unit: real)
    requires unit > 0.0 && g > 0
    ensures Scale(g, unit) > 0.0
    ensures RoundsFrom(Scale(g * j, unit), Scale(g, unit)) == j
  {
    ScaleBounds(g, unit);
    GridPositive(g, j, unit);
    if j > 0 {
      GridRounds(g, j - 1, unit);
      GridStep(g, j, unit);
    }
    hide Scale;
  }

  /** A wheel whose maximum is y gcds and where backend i weighs x gcds. */
  ghost predicate InGcds(wheel: Wheel, g: nat, unit: real, i: nat, x: nat, y: nat) {
    && unit > 0.0 && g > 0 && 1 <= x <= y && i < wheel.Size()
    && wheel.gcd == Scale(g, unit) && wheel.max == Scale(g * y, unit) && wheel.weights[i] == Scale(g * x, unit)
  }

  lemma {:induction false} GridLevel(wheel: Wheel, g: nat, unit: real, i: nat, x: nat, y: nat, k: nat)
    requires wheel.Valid() && InGcds(wheel, g, unit, i, x, y) && k < y
    ensures Level(wheel, k) == Scale(g * (y - k), unit)
    ensures wheel.weights[i] >= Level(wheel, k) <==> x + k >= y
  {
    if k > 0 {
      GridLevel(wheel, g, unit, i, x, y, k - 1);
      GridStep(g, y - k + 1, unit);
      GridPositive(g, y - k, unit);
    }
    ScaleMonotone(g * (y - k), g * x, unit);
    if g * (y - k) <= g * x { QuotientMonotone(y - k, x, g); }
    if x + k >= y { assert g * x == g * (y - k) + g * (x + k - y); }
    hide Scale;
  }

  lemma {:induction false} GridQuota(wheel: Wheel, g: nat, unit: real, i: nat, x: nat, y: nat, k: nat)
    requires wheel.Valid() && InGcds(wheel, g, unit, i, x, y) && k <= y
    ensures QuotaUpTo(wheel, i, k) == if x + k <= y then 0 else x + k - y
  {
    if k > 0 {
      GridQuota(wheel, g, unit, i, x, y, k - 1);
      GridLevel(wheel, g, unit, i, x, y, k - 1);
      hide InGcds, Level;
    }
  }

  /** On the grid a backend's quota is its weight in gcds, and it reaches the lowest level. */
  lemma QuotaOnGrid(weights: seq<real>, units: seq<nat>, unit: real, i: nat)
    requires OnGrid(weights, units, unit) && i < |units|
    ensures NewWheel(weights).Valid() && GcdAll(units) > 0
    ensures Quota(NewWheel(weights), i) == units[i] / GcdAll(units)
    ensures weights[i] >= LowestLevel(NewWheel(weights))
    ensures Rounds(NewWheel(weights)) == MaxAll(units) / GcdAll(units)
  {
    GridWheel(weights, units, unit, i);
    var wheel, g := NewWheel(weights), GcdAll(units);
    var x, y := units[i] / g, MaxAll(units) / g;
    assert InGcds(wheel, g, unit, i, x, y);
    GridRounds(g, y, unit);
    GridQuota(wheel, g, unit, i, x, y, y);
    GridLevel(wheel, g, unit, i, x, y, y - 1);
    RoundsExact(wheel);
  }

  /** The weights of the live backends below m, in gcds. */
  ghost function GridWindow(units: seq<nat>, alive: seq<bool>, m: nat): nat
    requires |alive| == |units| && m <= |units| && GcdAll(units) > 0
  {
    if m == 0 then 0 else GridWindow(units, alive, m - 1) + if alive[m - 1] then units[m - 1] / GcdAll(units) else 0
  }

  lemma {:induction false} WindowOnGrid(weights: seq<real>, units: seq<nat>, unit: real, alive: seq<bool>, m: nat)
    requires OnGrid(weights, units, unit) && weights != [] && |alive| == |units| && m <= |units|
    ensures NewWheel(weights).Valid() && GcdAll(units) > 0
    ensures Window(NewWheel(weights), alive, m) == GridWindow(units, alive, m)
  {
    QuotaOnGrid(weights, units, unit, if m == 0 then 0 else m - 1);
    if m > 0 {
      WindowOnGrid(weights, units, unit, alive, m - 1);
    }
  }

  /** On the grid every call completes, whatever the health flags. */
  lemma ServableOnGrid(weights: seq<real>, units: seq<nat>, unit: real, alive: seq<bool>)
    requires OnGrid(weights, units, unit) && weights != [] && |alive| == |units|
    ensures NewWheel(weights).Valid() && Servable(NewWheel(weights), alive)
  {
    QuotaOnGrid(weights, units, unit, 0);
    var live := AliveBelow(alive, |alive|);
    if |live| > 1 {
      QuotaOnGrid(weights, units, unit, live[0]);
      assert alive[live[0]];
    }
  }

  /**
    Weighted fairness: with weights on the grid and fixed health flags, any window of as many calls as the live
    weights amount to in gcds picks live backend i exactly weight/gcd times, from every counter value c.
   */
  lemma FairnessOnGrid(weights: seq<real>, units: seq<nat>, unit: real, alive: seq<bool>, c: nat, i: nat)
    requires OnGrid(weights, units, unit) && |alive| == |units| && i < |units|
    ensures NewWheel(weights).Valid() && GcdAll(units) > 0
    ensures Times(ServeRun(NewWheel(weights), alive, c, GridWindow(units, alive, |units|)).0, i)
      == if alive[i] then units[i] / GcdAll(units) else 0
  {
    QuotaOnGrid(weights, units, unit, i);
    WindowOnGrid(weights, units, unit, alive, |units|);
    ServableOnGrid(weights, units, unit, alive);
    hide Times, ServeRun, Servable, Quota;
    ExactFairness(NewWheel(weights), alive, c, i);
  }

  /** With all weights below the cut-off the step is 1, and the one round there is serves the heaviest backends only. */
  lemma TinyWeights(weights: seq<real>, i: nat)
    requires i < |weights| && forall j :: 0 <= j < |weights| ==> 0.0 < weights[j] < 0.0001
    ensures NewWheel(weights).Valid() && NewWheel(weights).gcd == 1.0 && Rounds(NewWheel(weights)) == 1
    ensures Quota(NewWheel(weights), i) == if forall j :: 0 <= j < |weights| ==> weights[j] <= weights[i] then 1 else 0
  {
    var wheel := NewWheel(weights);
    TinyFold(weights);
    assert weights[i] <= MaxFold(weights);
    CeilUnique(wheel.max, 1.0, 1);
    RoundsExact(wheel);
    assert QuotaUpTo(wheel, i, 0) == 0;
    assert Quota(wheel, i) == if weights[i] >= wheel.max then 1 else 0;
  }

  /** The gcd of 1 and 0.00005 comes out as 1. */
  lemma OffGridWheel()
    ensures NewWheel([1.0, 0.00005, 0.00005]) == Wheel([1.0, 0.00005, 0.00005], 1.0, 1.0)
  {
    var weights := [1.0, 0.00005, 0.00005];
    assert weights[..2][..1] == [1.0] && weights[..2] == [1.0, 0.00005];
    assert [1.0][..0] == [];
    FmodUnique(0.0, 1.0, 0, 0.0);
    GcdF64Step(0.0, 1.0);
    GcdF64Step(1.0, 0.0);
    GcdF64Step(1.0, 0.00005);
    assert GcdFold([1.0]) == 1.0;
    assert GcdFold([1.0, 0.00005]) == 1.0;
    assert GcdFold(weights) == 1.0;
    assert MaxFold(weights) == 1.0;
  }

  lemma LastTwoAlive()
    ensures AliveBelow([false, true, true], 3) == [1, 2]
  {
    assert AliveBelow([false, true, true], 1) == [];
    assert AliveBelow([false, true, true], 2) == [1];
  }

  /** Off the grid the loop need not end: the cut-off makes the gcd of 1 and 0.00005 come out as 1. */
  lemma OffGridNeverReturns()
    ensures NewWheel([1.0, 0.00005, 0.00005]).Valid()
    ensures !Servable(NewWheel([1.0, 0.00005, 0.00005]), [false, true, true])
  {
    hide NewWheel, AliveBelow;
    OffGridWheel();
    LastTwoAlive();
    CeilUnique(1.0, 1.0, 1);
  }

  /** Where the loop that starts at c stops. */
  lemma Target(wheel: Wheel, alive: seq<bool>, c: nat) returns (target: nat)
    requires wheel.Valid() && |alive| == wheel.Size() && Reachable(wheel, alive)
    ensures target == First(Cells(wheel, alive), c, c + Period(wheel)) && c <= target < c + Period(wheel)
    ensures Cells(wheel, alive)(target).Some? && Owned(Cells(wheel, alive), c, target) == 0
    ensures |AliveBelow(alive, |alive|)| >= 2 ==> Serve(wheel, alive, c) == (Cells(wheel, alive)(target), target + 1)
  {
    LoopEndsExactly(wheel, alive);
    CellsArePeriodic(wheel, alive);
    StopsWithinPeriod(Cells(wheel, alive), Period(wheel), c);
    target := First(Cells(wheel, alive), c, c + Period(wheel));
  }

  /** On the grid the loop takes at most n * (max/gcd) iterations, whoever is up. */
  lemma IterationsOnGrid(weights: seq<real>, units: seq<nat>, unit: real, alive: seq<bool>, c: nat)
    returns (target: nat)
    requires OnGrid(weights, units, unit) && |alive| == |units| && SomeAlive(alive)
    ensures NewWheel(weights).Valid() && GcdAll(units) > 0
    ensures Reachable(NewWheel(weights), alive)
    ensures target == First(Cells(NewWheel(weights), alive), c, c + Period(NewWheel(weights)))
    ensures c <= target < c + |weights| * (MaxAll(units) / GcdAll(units))
    ensures Cells(NewWheel(weights), alive)(target).Some?
  {
    hide Cells, First, LowestLevel, Rounds, Owned;
    var i: nat :| i < |alive| && alive[i];
    QuotaOnGrid(weights, units, unit, i);
    target := Target(NewWheel(weights), alive, c);
  }

  /** The level after the update at the head of the loop. */
  function Lowered(wheel: Wheel, c: nat, level: real): real
    requires wheel.weights != []
  {
    if c % wheel.Size() != 0 then level
    else if level - wheel.gcd <= 0.0 then wheel.max
    else level - wheel.gcd
  }

  // ----- flags that change while the loop runs -----

  /** What the loop sees: the flags as they are at the iteration in which the counter shows a. */
  ghost predicate SeesAll(wheel: Wheel, seen: nat -> seq<bool>) {
    forall a: nat :: |seen(a)| == wheel.Size()
  }

  ghost function CellsSeen(wheel: Wheel, seen: nat -> seq<bool>): nat -> Option<nat>
    requires wheel.Valid() && SeesAll(wheel, seen)
  {
    a => CellAt(wheel, seen(a), a)
  }

  ghost predicate Ends(cell: nat -> Option<nat>, c: nat) {
    exists a: nat :: c <= a && cell(a).Some?
  }

  /** The loop that starts at c stops at a, the first owned cell. */
  ghost predicate StopsAt(cell: nat -> Option<nat>, c: nat, a: nat) {
    c <= a && cell(a).Some? && Owned(cell, c, a) == 0
  }

  lemma EndsSomewhere(cell: nat -> Option<nat>, c: nat) returns (target: nat)
    requires Ends(cell, c)
    ensures StopsAt(cell, c, target)
  {
    var a: nat :| c <= a && cell(a).Some?;
    target := First(cell, c, a);
  }

  /**
    When the loop ends although the flags may change in every iteration: with flags that settle at `alive` from cell a0
    on, it ends if and only if it meets an owned cell before a0 or some backend that is up in the end reaches the
    lowest level.
   */
  lemma SettledEndsExactly(wheel: Wheel, seen: nat -> seq<bool>, alive: seq<bool>, c: nat, a0: nat)
    requires wheel.Valid() && SeesAll(wheel, seen) && |alive| == wheel.Size()
    requires forall a: nat :: a0 <= a ==> seen(a) == alive
    ensures Ends(CellsSeen(wheel, seen), c) <==>
      (exists a: nat :: c <= a < a0 && CellsSeen(wheel, seen)(a).Some?) || Reachable(wheel, alive)
  {
    hide Reachable, CellAt, First, Owned;
    LoopEndsExactly(wheel, alive);
    if Reachable(wheel, alive) {
      var from := if c < a0 then a0 else c;
      var target := Target(wheel, alive, from);
      assert CellsSeen(wheel, seen)(target) == Cells(wheel, alive)(target);
    }
    if Ends(CellsSeen(wheel, seen), c) && !exists a: nat :: c <= a < a0 && CellsSeen(wheel, seen)(a).Some? {
      var a: nat :| c <= a && CellsSeen(wheel, seen)(a).Some?;
      assert CellsSeen(wheel, seen)(a) == Cells(wheel, alive)(a);
    }
  }

  /** On the grid the loop ends exactly when it meets an owned cell before the flags settle or something is up then. */
  lemma SettledOnGrid(weights: seq<real>, units: seq<nat>, unit: real, seen: nat -> seq<bool>, alive: seq<bool>,
                      c: nat, a0: nat)
    requires OnGrid(weights, units, unit) && weights != [] && |alive| == |units|
    requires SeesAll(NewWheel(weights), seen) && forall a: nat :: a0 <= a ==> seen(a) == alive
    ensures NewWheel(weights).Valid()
    ensures Ends(CellsSeen(NewWheel(weights), seen), c) <==>
      (exists a: nat :: c <= a < a0 && CellsSeen(NewWheel(weights), seen)(a).Some?) || SomeAlive(alive)
  {
    hide LowestLevel, CellsSeen, Ends;
    QuotaOnGrid(weights, units, unit, 0);
    SettledEndsExactly(NewWheel(weights), seen, alive, c, a0);
    if SomeAlive(alive) {
      var i: nat :| i < |alive| && alive[i];
      QuotaOnGrid(weights, units, unit, i);
    }
  }

  lemma DarkNeverEnds(wheel: Wheel, seen: nat -> seq<bool>, c: nat)
    requires wheel.Valid() && SeesAll(wheel, seen) && forall a: nat :: true !in seen(a)
    ensures !Ends(CellsSeen(wheel, seen), c)
  {
    forall a: nat
      ensures CellsSeen(wheel, seen)(a) == None
    {
      assert !seen(a)[TurnIndex(a, wheel.Size())];
    }
  }

  lemma TwoEqual()
    ensures OnGrid([1.0, 1.0], [1, 1], 1.0) && AliveBelow([true, true], 2) == [0, 1]
  {
    assert AliveBelow([true, true], 1) == [0];
  }

  /** A call that has counted two live backends spins for ever when both go down before its first cell. */
  lemma SpinsForEver(seen: nat -> seq<bool>, c: nat)
    requires forall a: nat :: seen(a) == [false, false]
    ensures NewWheel([1.0, 1.0]).Valid() && Servable(NewWheel([1.0, 1.0]), [true, true])
    ensures |AliveBelow([true, true], 2)| == 2
    ensures SeesAll(NewWheel([1.0, 1.0]), seen) && !Ends(CellsSeen(NewWheel([1.0, 1.0]), seen), c)
  {
    hide OnGrid, Servable, CellsSeen, AliveBelow, Ends;
    TwoEqual();
    ServableOnGrid([1.0, 1.0], [1, 1], 1.0, [true, true]);
    DarkNeverEnds(NewWheel([1.0, 1.0]), seen, c);
  }

  /** With steady flags a call is the one that the fairness results are about. */
  lemma SteadyIsServe(wheel: Wheel, seen: nat -> seq<bool>, alive: seq<bool>, c: nat, target: nat)
    requires wheel.Valid() && SeesAll(wheel, seen) && |alive| == wheel.Size() && |AliveBelow(alive, |alive|)| >= 2
    requires forall a: nat :: seen(a) == alive
    ensures Servable(wheel, alive) <==> Ends(CellsSeen(wheel, seen), c)
    ensures StopsAt(CellsSeen(wheel, seen), c, target) ==>
      Serve(wheel, alive, c) == (CellsSeen(wheel, seen)(target), target + 1)
  {
    hide Reachable, CellAt, First, Owned, AliveBelow, Serve;
    SettledEndsExactly(wheel, seen, alive, c, c);
    assert forall a: nat :: CellsSeen(wheel, seen)(a) == Cells(wheel, alive)(a);
    if StopsAt(CellsSeen(wheel, seen), c, target) {
      var t := Target(wheel, alive, c);
      if target < t { OwnedCell(Cells(wheel, alive), c, target, t); }
      if t < target { OwnedCell(CellsSeen(wheel, seen), c, t, target); }
    }
  }

  /** One iteration: the level moves on, and the loop stops exactly at the first owned cell. */
  lemma LoopStep(wheel: Wheel, seen: nat -> seq<bool>, start: nat, c: nat, target: nat)
    requires wheel.Valid() && SeesAll(wheel, seen) && start <= c <= target
    requires StopsAt(CellsSeen(wheel, seen), start, target)
    ensures Lowered(wheel, c, LevelHeld(wheel, c)) == LevelHeld(wheel, c + 1)
    ensures c % wheel.Size() == TurnIndex(c, wheel.Size()) && |seen(c)| == wheel.Size()
    ensures c == target <==>
      seen(c)[TurnIndex(c, wheel.Size())] && wheel.weights[TurnIndex(c, wheel.Size())] >= LevelHeld(wheel, c + 1)
    ensures c == target ==> CellsSeen(wheel, seen)(c) == Some(TurnIndex(c, wheel.Size()))
  {
    LevelUpdate(wheel, c);
    if c < target && CellsSeen(wheel, seen)(c).Some? {
      OwnedCell(CellsSeen(wheel, seen), start, c, target);
    }
  }

  /** The scheduler object. */
  class WeightedRoundRobin {
    const wheel: Wheel
    var alive: seq<bool>
    var current: nat
    var currentWeight: real

    /** The level in hand is determined by the counter; nothing else is remembered. */
    ghost predicate Valid()
      reads this
    {
      && (wheel.weights == [] || wheel.Valid()) && |alive| == wheel.Size()
      && (wheel.weights != [] ==> currentWeight == LevelHeld(wheel, current))
    }

    constructor (weights: seq<real>, alive: seq<bool>)
      requires |alive| == |weights| && forall i :: 0 <= i < |weights| ==> weights[i] > 0.0
      ensures Valid() && wheel == NewWheel(weights) && this.alive == alive && current == 0
    {
      this.wheel := NewWheel(weights);
      this.alive := alive;
      current, currentWeight := 0, 0.0;
    }

    method SetAlive(i: nat, up: bool)
      requires Valid() && i < |alive|
      modifies this`alive
      ensures Valid() && alive == old(alive)[i := up]
    {
      alive := alive[i := up];
    }

    /** One call: `alive` is what the filter reads, `seen` what the loop reads afterwards, iteration by iteration. */
    method Next(seen: nat -> seq<bool>) returns (r: Option<nat>)
      requires Valid()
      requires wheel.weights != [] ==> SeesAll(wheel, seen)
      requires |AliveBelow(alive, |alive|)| >= 2 ==> Ends(CellsSeen(wheel, seen), current)
      modifies this`current, this`currentWeight
      ensures Valid()
      ensures wheel.weights == [] || AliveBelow(alive, |alive|) == [] ==> r == None && current == old(current)
      ensures |AliveBelow(alive, |alive|)| == 1 ==> r == Some(AliveBelow(alive, |alive|)[0]) && current == old(current)
      ensures |AliveBelow(alive, |alive|)| >= 2 ==>
        && current > 0 && StopsAt(CellsSeen(wheel, seen), old(current), current - 1)
        && r == CellsSeen(wheel, seen)(current - 1)
    {
      if wheel.weights == [] {
        return None;
      }
      var live := LiveIndices(alive);
      if live == [] {
        return None;
      }
      if |live| == 1 {
        return Some(live[0]);
      }
      ghost var target := EndsSomewhere(CellsSeen(wheel, seen), current);
      r := Walk(seen, current, target);
    }

    /** The loop under the lock: one cell per iteration until an owned one. */
    method Walk(seen: nat -> seq<bool>, ghost start: nat, ghost target: nat) returns (r: Option<nat>)
      requires wheel.Valid() && SeesAll(wheel, seen)
      requires currentWeight == LevelHeld(wheel, current) && start == current
      requires StopsAt(CellsSeen(wheel, seen), start, target)
      modifies this`current, this`currentWeight
      ensures currentWeight == LevelHeld(wheel, current) && current == target + 1
      ensures r == CellsSeen(wheel, seen)(target)
    {
      assert wheel.Size() > 0 && wheel.max > 0.0 && start <= target;
      hide LevelHeld, CellsSeen, StopsAt, TurnIndex;
      while true
        invariant start <= current <= target && currentWeight == LevelHeld(wheel, current)
        decreases target - current
      {
        LoopStep(wheel, seen, start, current, target);
        var i := current % wheel.Size();
        var alive := seen(current);
        ghost var c, level := current, currentWeight;
        current := current + 1;
        if i == 0 {
          currentWeight := currentWeight - wheel.gcd;
          if currentWeight <= 0.0 {
            currentWeight := wheel.max;
            if currentWeight <= 0.0 {
              return None;
            }
          }
        }
        assert currentWeight == Lowered(wheel, c, level);
        if !alive[i] {
          continue;
        }
        if wheel.weights[i] >= currentWeight {
          return Some(i);
        }
      }
    }
  }
}
