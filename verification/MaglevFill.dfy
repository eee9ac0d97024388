/**
  The Maglev fill: entries take turns, and each turn claims the first slot of the entry's
  preference walk that is still free. `Fill` is that rule with every walk scanned from its start;
  `PopulateTable` is the in-place version with one cached cursor per entry.
 */
module MaglevFill {
  import opened Primes
  import opened Counting

  /** The marker of a free slot, `usize::MAX`. */
  const EMPTY: nat := 0xFFFF_FFFF_FFFF_FFFF

  /** One repetition of a backend, with its walk parameters. */
  datatype Entry = Entry(backend: nat, offset: nat, skip: nat)

  ghost predicate GoodEntries(entries: seq<Entry>, m: nat) {
    && |entries| > 0
    && forall e :: 0 <= e < |entries| ==> GoodEntry(entries[e], m)
  }

  predicate GoodEntry(e: Entry, m: nat) {
    e.backend < EMPTY && e.offset < m && 1 <= e.skip < m
  }

  /** The k-th slot that an entry prefers. */
  function Walk(e: Entry, k: nat, m: nat): nat
    requires 0 < m
  {
    (e.offset + k * e.skip) % m
  }

  lemma StepsBetween(e: Entry, i: nat, j: nat, m: nat)
    requires 0 < m && i < j && Walk(e, i, m) == Walk(e, j, m)
    ensures ((j - i) * e.skip) % m == 0
  {
    var p, d := i * e.skip, (j - i) * e.skip;
    assert j * e.skip == p + d;
    CongruentDifference(e.offset + p, e.offset + p + d, m);
  }

  lemma WalkInjective(e: Entry, i: nat, j: nat, m: nat)
    requires IsPrime(m) && GoodEntry(e, m)
    requires i < j < m
    ensures Walk(e, i, m) != Walk(e, j, m)
  {
    hide Walk, IsPrime;
    if Walk(e, i, m) == Walk(e, j, m) {
      StepsBetween(e, i, j, m);
      EuclidLemma(j - i, e.skip, m);
      DivModUnique(j - i, m, 0, j - i);
      assert false;
    }
  }

  /** The position of a slot in an entry's preferences; m when it does not occur from k on. */
  function RankFrom(e: Entry, slot: nat, k: nat, m: nat): (r: nat)
    requires 0 < m && k <= m
    ensures k <= r <= m
    ensures r < m ==> Walk(e, r, m) == slot
    ensures forall i :: k <= i < r ==> Walk(e, i, m) != slot
    decreases m - k
  {
    if k == m || Walk(e, k, m) == slot then k else RankFrom(e, slot, k + 1, m)
  }

  function Rank(e: Entry, slot: nat, m: nat): nat
    requires 0 < m
  {
    RankFrom(e, slot, 0, m)
  }

  /** Every walk visits every slot exactly once in its first m steps. */
  lemma WalkIsBijection(e: Entry, slot: nat, m: nat)
    requires IsPrime(m) && GoodEntry(e, m) && slot < m
    ensures Rank(e, slot, m) < m && Walk(e, Rank(e, slot, m), m) == slot
    ensures forall k :: 0 <= k < m && Walk(e, k, m) == slot ==> k == Rank(e, slot, m)
  {
    var walk := seq(m, k requires 0 <= k => Walk(e, k, m));
    forall i, j | 0 <= i < j < m
      ensures walk[i] != walk[j]
    {
      WalkInjective(e, i, j, m);
    }
    Pigeonhole(walk, slot);
    var k :| 0 <= k < m && walk[k] == slot;
    assert Walk(e, k, m) == slot;
    var r := Rank(e, slot, m);
    assert r <= k;
    forall k | 0 <= k < m && Walk(e, k, m) == slot
      ensures k == r
    {
      if r < k { WalkInjective(e, r, k, m); }
    }
  }

  /** The first step of the walk, from step k on, whose slot is free; |table| when there is none. */
  function FirstFree(e: Entry, table: seq<nat>, k: nat): (r: nat)
    requires 0 < |table| && k <= |table|
    ensures k <= r <= |table|
    ensures forall i :: k <= i < r ==> table[Walk(e, i, |table|)] != EMPTY
    ensures r < |table| ==> table[Walk(e, r, |table|)] == EMPTY
    decreases |table| - k
  {
    if k == |table| || table[Walk(e, k, |table|)] == EMPTY then k else FirstFree(e, table, k + 1)
  }

  /** The entry claims its most preferred free slot, if there is one. */
  function Claim(table: seq<nat>, e: Entry): (r: seq<nat>)
    requires 0 < |table|
    ensures |r| == |table|
  {
    var k := FirstFree(e, table, 0);
    if k < |table| then table[Walk(e, k, |table|) := e.backend] else table
  }

  function TurnEntry(entries: seq<Entry>, t: nat): Entry
    requires |entries| > 0
  {
    entries[TurnIndex(t, |entries|)]
  }

  /** The table after t turns. */
  function Fill(entries: seq<Entry>, m: nat, t: nat): (r: seq<nat>)
    requires 0 < m && |entries| > 0
    ensures |r| == m
  {
    if t == 0 then seq(m, _ => EMPTY) else Claim(Fill(entries, m, t - 1), TurnEntry(entries, t - 1))
  }

  /** The table when every slot has been claimed. */
  function FullTable(entries: seq<Entry>, m: nat): (r: seq<nat>)
    requires 0 < m && |entries| > 0
    ensures |r| == m
  {
    Fill(entries, m, m)
  }

  /** How far down its preferences turn t has to go, and the slot it gets. */
  function Choice(entries: seq<Entry>, m: nat, t: nat): nat
    requires 0 < m && |entries| > 0
  {
    FirstFree(TurnEntry(entries, t), Fill(entries, m, t), 0)
  }

  function SlotOf(entries: seq<Entry>, m: nat, t: nat): (s: nat)
    requires 0 < m && |entries| > 0
    ensures s < m
  {
    Walk(TurnEntry(entries, t), Choice(entries, m, t), m)
  }

  /** As long as fewer than m turns were taken, every turn finds a free slot. */
  lemma {:induction false} TurnSucceeds(entries: seq<Entry>, m: nat, t: nat)
    requires IsPrime(m) && GoodEntries(entries, m) && t <= m
    ensures Count(Fill(entries, m, t), EMPTY) == m - t
    ensures t < m ==> Choice(entries, m, t) < m
  {
    hide Walk, TurnIndex;
    var table := Fill(entries, m, t);
    if t == 0 {
      CountAll(table, EMPTY);
    } else {
      TurnSucceeds(entries, m, t - 1);
      var e := TurnEntry(entries, t - 1);
      assert GoodEntry(e, m);
      CountUpdate(Fill(entries, m, t - 1), SlotOf(entries, m, t - 1), e.backend, EMPTY);
    }
    if t < m {
      var slot := CountPositive(table, EMPTY);
      var e := TurnEntry(entries, t);
      assert GoodEntry(e, m);
      WalkIsBijection(e, slot, m);
      assert table[Walk(e, Rank(e, slot, m), m)] == EMPTY;
    }
  }

  /** A claimed slot keeps its owner for the rest of the fill. */
  lemma {:induction false} ClaimsLast(entries: seq<Entry>, m: nat, t: nat, u: nat, s: nat)
    requires 0 < m && |entries| > 0 && t <= u && s < m
    requires Fill(entries, m, t)[s] != EMPTY
    ensures Fill(entries, m, u)[s] == Fill(entries, m, t)[s]
    decreases u
  {
    if t < u {
      ClaimsLast(entries, m, t, u - 1, s);
    }
  }

  /** Turn t owns its slot in every later table. */
  lemma SlotIsOwned(entries: seq<Entry>, m: nat, t: nat, u: nat)
    requires IsPrime(m) && GoodEntries(entries, m) && t < u <= m
    ensures Fill(entries, m, u)[SlotOf(entries, m, t)] == TurnEntry(entries, t).backend
    ensures Fill(entries, m, u)[SlotOf(entries, m, t)] != EMPTY
    ensures u < m ==> SlotOf(entries, m, u) != SlotOf(entries, m, t)
  {
    TurnSucceeds(entries, m, t);
    var e := TurnEntry(entries, t);
    assert GoodEntry(e, m);
    ClaimsLast(entries, m, t + 1, u, SlotOf(entries, m, t));
    if u < m { TurnSucceeds(entries, m, u); }
  }

  /** A slot is taken after u turns exactly when an earlier turn chose it. */
  lemma {:induction false} TakenByTurn(entries: seq<Entry>, m: nat, u: nat, s: nat)
    returns (t: nat)
    requires 0 < m && |entries| > 0 && s < m
    requires Fill(entries, m, u)[s] != EMPTY
    ensures t < u && SlotOf(entries, m, t) == s
    ensures Fill(entries, m, u)[s] == TurnEntry(entries, t).backend
  {
    if Fill(entries, m, u - 1)[s] != EMPTY {
      t := TakenByTurn(entries, m, u - 1, s);
      assert Fill(entries, m, u)[s] == Fill(entries, m, u - 1)[s];
    } else {
      t := u - 1;
    }
  }

  /** After m turns no slot is left free, and every slot names the backend of the turn that chose it. */
  lemma FillComplete(entries: seq<Entry>, m: nat, s: nat) returns (t: nat)
    requires IsPrime(m) && GoodEntries(entries, m) && s < m
    ensures t < m && SlotOf(entries, m, t) == s
    ensures FullTable(entries, m)[s] == TurnEntry(entries, t).backend
    ensures FullTable(entries, m)[s] != EMPTY
  {
    var table := Fill(entries, m, m);
    TurnSucceeds(entries, m, m);
    if table[s] == EMPTY {
      CountUpdate(table, s, 0, EMPTY);
      assert false;
    }
    t := TakenByTurn(entries, m, m, s);
  }

  /**
    Serial dictatorship is Pareto-optimal: if another assignment of distinct slots to the turns gives
    no turn a slot that it likes less, it is the same assignment.
   */
  lemma {:induction false} FillParetoOptimal(entries: seq<Entry>, m: nat, other: seq<nat>, t: nat)
    requires IsPrime(m) && GoodEntries(entries, m)
    requires |other| == m && Injective(other)
    requires forall u :: 0 <= u < m ==> other[u] < m
    requires forall u :: 0 <= u < m ==>
      Rank(TurnEntry(entries, u), other[u], m) <= Rank(TurnEntry(entries, u), SlotOf(entries, m, u), m)
    requires t < m
    ensures other[t] == SlotOf(entries, m, t)
  {
    var e, table := TurnEntry(entries, t), Fill(entries, m, t);
    assert GoodEntry(e, m);
    TurnSucceeds(entries, m, t);
    WalkIsBijection(e, other[t], m);
    WalkIsBijection(e, SlotOf(entries, m, t), m);
    var mine := Rank(e, other[t], m);
    assert mine <= Choice(entries, m, t);
    if mine < Choice(entries, m, t) {
      assert table[Walk(e, mine, m)] != EMPTY;
      var u := TakenByTurn(entries, m, t, other[t]);
      FillParetoOptimal(entries, m, other, u);
      assert false;
    }
  }

  /** Scanning from a cursor below which everything is taken gives the same step as scanning from the start. */
  lemma {:induction false} FirstFreeFromCursor(e: Entry, table: seq<nat>, k: nat)
    requires 0 < |table| && k <= |table|
    requires forall i :: 0 <= i < k ==> table[Walk(e, i, |table|)] != EMPTY
    ensures FirstFree(e, table, 0) == FirstFree(e, table, k)
  {
    var r, q := FirstFree(e, table, 0), FirstFree(e, table, k);
    assert !(r < q) && !(q < r);
  }

  /** Every slot below the cursor of entry e is taken. */
  ghost predicate CursorSound(e: Entry, table: seq<nat>, cursor: nat)
    requires 0 < |table|
  {
    && cursor <= |table|
    && forall k :: 0 <= k < cursor ==> table[Walk(e, k, |table|)] != EMPTY
  }

  ghost predicate CursorsSound(entries: seq<Entry>, table: seq<nat>, next: seq<nat>)
    requires 0 < |table| && |next| == |entries|
  {
    forall e :: 0 <= e < |entries| ==> CursorSound(entries[e], table, next[e])
  }

  /** Claiming the slot at the cursor of entry i and advancing it keeps every cursor sound. */
  lemma ClaimKeepsCursors(entries: seq<Entry>, table: seq<nat>, next: seq<nat>, i: nat)
    requires 0 < |table| && GoodEntries(entries, |table|) && |next| == |entries|
    requires CursorsSound(entries, table, next)
    requires i < |entries| && next[i] < |table|
    requires table[Walk(entries[i], next[i], |table|)] == EMPTY
    ensures Claim(table, entries[i]) == table[Walk(entries[i], next[i], |table|) := entries[i].backend]
    ensures CursorsSound(entries, Claim(table, entries[i]), next[i := next[i] + 1])
  {
    assert CursorSound(entries[i], table, next[i]);
    FirstFreeFromCursor(entries[i], table, next[i]);
    assert GoodEntry(entries[i], |table|);
    var table', next' := Claim(table, entries[i]), next[i := next[i] + 1];
    forall e | 0 <= e < |entries|
      ensures CursorSound(entries[e], table', next'[e])
    {
      assert CursorSound(entries[e], table, next[e]);
    }
  }

  /** A cursor that meets a taken slot can advance: it stays sound and within the table. */
  lemma AdvanceCursor(e: Entry, table: seq<nat>, cursor: nat)
    requires IsPrime(|table|) && GoodEntry(e, |table|) && EMPTY in table
    requires CursorSound(e, table, cursor)
    ensures cursor < |table|
    ensures table[Walk(e, cursor, |table|)] != EMPTY ==> CursorSound(e, table, cursor + 1)
  {
    var slot :| 0 <= slot < |table| && table[slot] == EMPTY;
    WalkIsBijection(e, slot, |table|);
    assert table[Walk(e, Rank(e, slot, |table|), |table|)] == EMPTY;
  }

  lemma ProbeIsSmall(e: Entry, cursor: nat, m: nat)
    requires GoodEntry(e, m) && cursor <= m
    ensures e.offset + cursor * e.skip <= m + m * m
  {
    assert cursor * e.skip <= m * e.skip <= m * m;
  }

  lemma NextTurn(round: nat, i: nat, n: nat)
    requires i < n && TurnIndex(round, n) == 0
    ensures TurnIndex(round + i, n) == i && TurnIndex(round + n, n) == 0
  {
    DivModUnique(round + i, n, round / n, i);
    DivModUnique(round + n, n, round / n + 1, 0);
  }

  /** What the fill keeps: after `filled` turns, having examined `probes` slots. */
  ghost predicate Filling(entries: seq<Entry>, m: nat, table: seq<nat>, next: seq<nat>, filled: nat, probes: nat) {
    && 0 < m && |entries| > 0 && |next| == |entries|
    && table == Fill(entries, m, filled)
    && CursorsSound(entries, table, next)
    && probes == Sum(next)
  }

  /** Before turn `filled`, the cursor of its entry is inside the table; if its slot is taken it may advance. */
  lemma Advance(entries: seq<Entry>, m: nat, table: seq<nat>, next: seq<nat>, filled: nat, probes: nat, i: nat)
    requires IsPrime(m) && GoodEntries(entries, m) && filled < m && i < |entries|
    requires Filling(entries, m, table, next, filled, probes)
    ensures next[i] < m && entries[i].offset + next[i] * entries[i].skip <= m + m * m
    ensures table[Walk(entries[i], next[i], m)] != EMPTY ==>
      Filling(entries, m, table, next[i := next[i] + 1], filled, probes + 1)
  {
    hide Walk;
    var e := entries[i];
    assert GoodEntry(e, m) && CursorSound(e, table, next[i]);
    TurnSucceeds(entries, m, filled);
    var s := CountPositive(table, EMPTY);
    AdvanceCursor(e, table, next[i]);
    ProbeIsSmall(e, next[i], m);
    SumUpdate(next, i, next[i] + 1);
  }

  lemma Take(entries: seq<Entry>, m: nat, table: seq<nat>, next: seq<nat>, filled: nat, probes: nat, i: nat)
    requires IsPrime(m) && GoodEntries(entries, m) && filled < m && i < |entries| && TurnIndex(filled, |entries|) == i
    requires Filling(entries, m, table, next, filled, probes) && next[i] < m
    requires table[Walk(entries[i], next[i], m)] == EMPTY
    ensures Filling(entries, m, table[Walk(entries[i], next[i], m) := entries[i].backend],
                    next[i := next[i] + 1], filled + 1, probes + 1)
  {
    ClaimKeepsCursors(entries, table, next, i);
    SumUpdate(next, i, next[i] + 1);
  }

  /**
    The fill with cached cursors. It ends with every slot claimed, agrees with the rule that rescans
    every walk, examines at most E * m slots in all, and never forms a number above m + m * m.
   */
  method PopulateTable(entries: seq<Entry>, m: nat) returns (table: array<nat>, ghost probes: nat)
    requires IsPrime(m) && GoodEntries(entries, m)
    ensures fresh(table) && table[..] == FullTable(entries, m)
    ensures probes <= |entries| * m
  {
    assert |entries| > 0 && m > 0 && TurnIndex(0, |entries|) == 0;
    hide *;
    table := new nat[m](_ => EMPTY);
    var next := new nat[|entries|](_ => 0);
    var filled := 0;
    probes := 0;
    FillingStarts(entries, m, table[..], next[..]);
    while filled < m
      invariant filled <= m && (filled < m ==> TurnIndex(filled, |entries|) == 0)
      invariant Filling(entries, m, table[..], next[..], filled, probes)
    {
      ghost var round := filled;
      NextTurn(round, 0, |entries|);
      for i := 0 to |entries|
        invariant filled == round + i < m
        invariant Filling(entries, m, table[..], next[..], filled, probes)
      {
        NextTurn(round, i, |entries|);
        filled, probes := Turn(entries, m, table, next, i, filled, probes);
        if filled >= m {
          break;
        }
      }
    }
    FillingEnds(entries, m, table[..], next[..], probes);
  }

  /** One turn of the fill: entry i walks from its cursor to a free slot and claims it. */
  method Turn(entries: seq<Entry>, m: nat, table: array<nat>, next: array<nat>, i: nat, filled: nat, ghost probes: nat)
    returns (filled': nat, ghost probes': nat)
    requires IsPrime(m) && GoodEntries(entries, m)
    requires table != next && table.Length == m && next.Length == |entries|
    requires filled < m && i < |entries| && TurnIndex(filled, |entries|) == i
    requires Filling(entries, m, table[..], next[..], filled, probes)
    modifies table, next
    ensures filled' == filled + 1
    ensures Filling(entries, m, table[..], next[..], filled', probes')
  {
    hide Filling;
    probes' := probes;
    var e := entries[i];
    Advance(entries, m, table[..], next[..], filled, probes', i);
    var c := (e.offset + next[i] * e.skip) % m;
    while table[c] != EMPTY
      invariant Filling(entries, m, table[..], next[..], filled, probes')
      invariant next[i] < m && c == Walk(e, next[i], m)
      decreases m - next[i]
    {
      Advance(entries, m, table[..], next[..], filled, probes', i);
      ghost var before := next[..];
      next[i] := next[i] + 1;
      probes' := probes' + 1;
      assert next[..] == before[i := before[i] + 1];
      Advance(entries, m, table[..], next[..], filled, probes', i);
      c := (e.offset + next[i] * e.skip) % m;
    }
    ghost var cells, cursors := table[..], next[..];
    Take(entries, m, cells, cursors, filled, probes', i);
    table[c] := e.backend;
    next[i] := next[i] + 1;
    filled' := filled + 1;
    probes' := probes' + 1;
    assert table[..] == cells[c := e.backend];
    assert next[..] == cursors[i := cursors[i] + 1];
  }

  lemma FillingStarts(entries: seq<Entry>, m: nat, table: seq<nat>, next: seq<nat>)
    requires IsPrime(m) && |entries| > 0 && |table| == m && |next| == |entries|
    requires forall s :: 0 <= s < m ==> table[s] == EMPTY
    requires forall e :: 0 <= e < |next| ==> next[e] == 0
    ensures Filling(entries, m, table, next, 0, 0)
  {
    assert table == Fill(entries, m, 0);
    ZeroSum(next);
  }

  lemma FillingEnds(entries: seq<Entry>, m: nat, table: seq<nat>, next: seq<nat>, probes: nat)
    requires Filling(entries, m, table, next, m, probes)
    ensures table == FullTable(entries, m) && probes <= |entries| * m
  {
    CursorsAtMost(entries, table, next);
  }

  lemma CursorsAtMost(entries: seq<Entry>, table: seq<nat>, next: seq<nat>)
    requires 0 < |table| && |next| == |entries| && CursorsSound(entries, table, next)
    ensures Sum(next) <= |entries| * |table|
  {
    forall e | 0 <= e < |next| ensures next[e] <= |table| {
      assert CursorSound(entries[e], table, next[e]);
    }
    SumAtMost(next, |table|);
  }

  lemma {:induction false} ZeroSum(s: seq<nat>)
    requires forall i :: 0 <= i < |s| ==> s[i] == 0
    ensures Sum(s) == 0
  {
    if s != [] {
      ZeroSum(s[..|s| - 1]);
    }
  }
}
