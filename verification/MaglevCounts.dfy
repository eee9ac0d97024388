/** How many slots of the filled table each backend owns. */
module MaglevCounts {
  import opened Primes
  import opened Counting
  import opened MaglevFill

  /** How many of the first n entries belong to backend b. */
  function Repetitions(entries: seq<Entry>, b: nat, n: nat): nat
    requires n <= |entries|
  {
    if n == 0 then 0 else Repetitions(entries, b, n - 1) + if entries[n - 1].backend == b then 1 else 0
  }

  /** How many of the first t turns belong to entry e, when n entries take turns. */
  function Share(n: nat, e: nat, t: nat): nat
    requires 0 < n
  {
    t / n + if e < t % n then 1 else 0
  }

  /** The shares of the first k entries that belong to backend b. */
  function BackendShare(entries: seq<Entry>, b: nat, t: nat, k: nat): nat
    requires k <= |entries| && |entries| > 0
  {
    if k == 0 then 0
    else BackendShare(entries, b, t, k - 1) + if entries[k - 1].backend == b then Share(|entries|, k - 1, t) else 0
  }

  lemma ShareStep(n: nat, e: nat, t: nat)
    requires e < n
    ensures Share(n, e, t + 1) == Share(n, e, t) + if TurnIndex(t, n) == e then 1 else 0
  {
    var q, r := t / n, t % n;
    if r + 1 < n {
      DivModUnique(t + 1, n, q, r + 1);
    } else {
      DivModUnique(t + 1, n, q + 1, 0);
    }
  }

  lemma {:induction false} BackendShareStep(entries: seq<Entry>, b: nat, t: nat, k: nat)
    requires k <= |entries| && |entries| > 0
    ensures BackendShare(entries, b, t + 1, k) == BackendShare(entries, b, t, k)
      + if TurnIndex(t, |entries|) < k && TurnEntry(entries, t).backend == b then 1 else 0
  {
    hide Share, TurnIndex;
    if k > 0 {
      BackendShareStep(entries, b, t, k - 1);
      ShareStep(|entries|, k - 1, t);
    }
  }

  lemma {:induction false} NoShareYet(entries: seq<Entry>, b: nat, k: nat)
    requires k <= |entries| && |entries| > 0
    ensures BackendShare(entries, b, 0, k) == 0
  {
    if k > 0 {
      NoShareYet(entries, b, k - 1);
      DivModUnique(0, |entries|, 0, 0);
    }
  }

  lemma ClaimCount(table: seq<nat>, e: Entry, b: nat)
    requires 0 < |table| && FirstFree(e, table, 0) < |table| && b != EMPTY
    ensures Count(Claim(table, e), b) == Count(table, b) + if e.backend == b then 1 else 0
  {
    var s := Walk(e, FirstFree(e, table, 0), |table|);
    assert s < |table|;
    hide Walk;
    CountUpdate(table, s, e.backend, b);
  }

  lemma TurnCount(entries: seq<Entry>, m: nat, b: nat, t: nat)
    requires IsPrime(m) && GoodEntries(entries, m) && t < m && b != EMPTY
    ensures Count(Fill(entries, m, t + 1), b)
      == Count(Fill(entries, m, t), b) + if TurnEntry(entries, t).backend == b then 1 else 0
  {
    TurnSucceeds(entries, m, t);
    hide Walk, IsPrime, FirstFree, Claim, Count, GoodEntries, GoodEntry;
    ClaimCount(Fill(entries, m, t), TurnEntry(entries, t), b);
  }

  lemma NothingOwnedYet(entries: seq<Entry>, m: nat, b: nat)
    requires 0 < m && |entries| > 0 && b != EMPTY
    ensures Count(Fill(entries, m, 0), b) == BackendShare(entries, b, 0, |entries|)
  {
    CountNone(Fill(entries, m, 0), b);
    NoShareYet(entries, b, |entries|);
  }

  /** After t turns a backend owns as many slots as its entries had turns. */
  lemma {:induction false} SlotsAreTurns(entries: seq<Entry>, m: nat, b: nat, t: nat)
    requires IsPrime(m) && GoodEntries(entries, m)
    requires t <= m && b != EMPTY
    ensures Count(Fill(entries, m, t), b) == BackendShare(entries, b, t, |entries|)
    decreases t
  {
    if t == 0 {
      NothingOwnedYet(entries, m, b);
    } else {
      var u := t - 1;
      SlotsAreTurns(entries, m, b, u);
      TurnCount(entries, m, b, u);
      BackendShareStep(entries, b, u, |entries|);
      hide *;
    }
  }

  function CeilDiv(m: nat, n: nat): nat
    requires 0 < n
  {
    m / n + if m % n == 0 then 0 else 1
  }

  lemma ShareBounds(n: nat, e: nat, t: nat)
    requires e < n
    ensures t / n <= Share(n, e, t) <= CeilDiv(t, n)
  {
  }

  lemma Distribute(r: nat, x: nat)
    ensures (r + 1) * x == r * x + x
  {
  }

  lemma {:induction false} BackendShareBounds(entries: seq<Entry>, b: nat, t: nat, k: nat)
    requires k <= |entries| && |entries| > 0
    ensures Repetitions(entries, b, k) * (t / |entries|) <= BackendShare(entries, b, t, k)
    ensures BackendShare(entries, b, t, k) <= Repetitions(entries, b, k) * CeilDiv(t, |entries|)
  {
    hide Share, CeilDiv;
    if k > 0 {
      BackendShareBounds(entries, b, t, k - 1);
      ShareBounds(|entries|, k - 1, t);
      var r := Repetitions(entries, b, k - 1);
      Distribute(r, t / |entries|);
      Distribute(r, CeilDiv(t, |entries|));
    }
  }

  /** The shares add up to the full rounds of all the backend's entries and the begun round of its first entries. */
  lemma {:induction false} ShareSum(entries: seq<Entry>, b: nat, t: nat, k: nat, q: nat, r: nat)
    requires k <= |entries| && |entries| > 0 && r <= |entries|
    requires forall e: nat :: Share(|entries|, e, t) == q + if e < r then 1 else 0
    ensures BackendShare(entries, b, t, k)
      == Repetitions(entries, b, k) * q + Repetitions(entries, b, if k <= r then k else r)
  {
    hide Share;
    if k > 0 {
      ShareSum(entries, b, t, k - 1, q, r);
      Distribute(Repetitions(entries, b, k - 1), q);
    }
  }

  /**
    The exact fairness of the full table: each of a backend's r entries brings floor(m/E) slots, plus one for every
    entry among the first m mod E, so it owns between r * floor(m/E) and r * ceil(m/E) slots.
   */
  lemma SlotCounts(entries: seq<Entry>, m: nat, b: nat)
    requires IsPrime(m) && GoodEntries(entries, m) && b != EMPTY
    ensures Count(FullTable(entries, m), b)
      == Repetitions(entries, b, |entries|) * (m / |entries|) + Repetitions(entries, b, TurnIndex(m, |entries|))
    ensures Repetitions(entries, b, |entries|) * (m / |entries|) <= Count(FullTable(entries, m), b)
    ensures Count(FullTable(entries, m), b) <= Repetitions(entries, b, |entries|) * CeilDiv(m, |entries|)
  {
    SlotsAreTurns(entries, m, b, m);
    BackendShareBounds(entries, b, m, |entries|);
    ShareSum(entries, b, m, |entries|, m / |entries|, TurnIndex(m, |entries|));
  }

  lemma {:induction false} RepetitionsFound(entries: seq<Entry>, b: nat, n: nat)
    requires n <= |entries|
    ensures Repetitions(entries, b, n) > 0 <==> exists e :: 0 <= e < n && entries[e].backend == b
  {
    if n > 0 {
      RepetitionsFound(entries, b, n - 1);
    }
  }

  /** How many slots a backend owns is positive exactly when one of the first m entries is its own. */
  lemma OwnsSome(all: nat, early: nat, m: nat, n: nat)
    requires 0 < n
    ensures n <= m ==> (all * (m / n) + early > 0 <==> all > 0 || early > 0)
    ensures m < n ==> m / n == 0 && m % n == m
  {
    if n <= m {
      QuotientPositive(m, n);
      if all > 0 { MulGrows(all, m / n); }
    } else {
      DivModUnique(m, n, 0, m);
    }
  }

  /**
    Who is served, exactly: a backend owns a slot if and only if one of its entries is among the first m, so with no
    more entries than slots every backend that has an entry, and otherwise none whose entries all come later.
   */
  lemma ServedExactly(entries: seq<Entry>, m: nat, b: nat)
    requires IsPrime(m) && GoodEntries(entries, m) && b != EMPTY
    ensures b in FullTable(entries, m) <==> exists e :: 0 <= e < |entries| && e < m && entries[e].backend == b
  {
    hide FullTable, Count, Repetitions, IsPrime, GoodEntries, CeilDiv;
    GoodEntriesExist(entries, m);
    var n := |entries|;
    SlotCounts(entries, m, b);
    CountsOccurrence(FullTable(entries, m), b);
    OwnsSome(Repetitions(entries, b, n), Repetitions(entries, b, TurnIndex(m, n)), m, n);
    RepetitionsFound(entries, b, n);
    RepetitionsFound(entries, b, TurnIndex(m, n));
  }

  lemma GoodEntriesExist(entries: seq<Entry>, m: nat)
    requires IsPrime(m) && GoodEntries(entries, m)
    ensures |entries| > 0 && m > 0
  {
  }

  lemma QuotientPositive(m: nat, n: nat)
    requires 0 < n <= m
    ensures m / n >= 1
  {
    assert m == n * (m / n) + m % n;
    if m / n == 0 {
      assert false;
    }
  }
}
