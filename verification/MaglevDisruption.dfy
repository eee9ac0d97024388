/**
  How far a rebuild leaves the surviving backends alone. The project's documentation says that only the
  failed backend's traffic moves; the table guarantees that exactly when at most one backend survives.
 */
module MaglevDisruption {
  import opened Net
  import opened Backends
  import opened Counting
  import opened Primes
  import opened MaglevFill
  import opened Maglev
  import opened Fnv

  /** Backend b is up in these flags and exactly n others are. */
  ghost predicate LeavesSurvivors(pool: Pool, flags: seq<bool>, b: nat, n: nat) {
    && pool.Valid() && pool.PositiveWeights()
    && |flags| == |pool.backends| && b < |flags| && flags[b]
    && |AliveBelow(flags[b := false], |flags|)| == n
  }

  /** A rebuild after backend b has failed changes only slots that b owned. */
  ghost predicate OnlyFailedMoves(pool: Pool, flags: seq<bool>, b: nat)
    requires |flags| == |pool.backends| && b < |flags|
  {
    var before, after := TableFor(pool, flags), TableFor(pool, flags[b := false]);
    forall s :: 0 <= s < |before| && before[s] != b ==> s < |after| && after[s] == before[s]
  }

  /** The program's own hash function. */
  ghost predicate UsesFnv(pool: Pool) {
    forall key :: pool.hash(key) == Fnv1a(key)
  }

  /** Whatever the addresses, the weights and the flags: a failure that leaves n backends moves only its own slots. */
  ghost predicate MinimalDisruptionGuaranteed(n: nat) {
    forall pool, flags, b :: UsesFnv(pool) && LeavesSurvivors(pool, flags, b, n) ==> OnlyFailedMoves(pool, flags, b)
  }

  /** With at most one survivor there is nobody else to take its slots. */
  lemma OneSurvivor(pool: Pool, flags: seq<bool>, b: nat, n: nat)
    requires LeavesSurvivors(pool, flags, b, n) && n <= 1
    ensures OnlyFailedMoves(pool, flags, b)
  {
    hide TableFor;
    var later := flags[b := false];
    TableShape(pool, flags);
    TableShape(pool, later);
    var before, after := TableFor(pool, flags), TableFor(pool, later);
    forall s | 0 <= s < |before| && before[s] != b
      ensures s < |after| && after[s] == before[s]
    {
      assert later[before[s]];
      assert SomeAlive(later);
      var survivors := AliveBelow(later, |flags|);
      assert before[s] in survivors && after[s] in survivors;
    }
  }

  /** Three addresses that contend for slots; further backends, which need not differ in address, do not matter. */
  function Address(b: nat): seq<Byte> {
    if b == 0 then First() else if b == 1 then Second() else if b == 2 then Third()
    else Text("192.0.2.1:53")
  }

  function ContendedPool(n: nat): (pool: Pool)
    ensures |pool.backends| == n
    ensures forall b :: 0 <= b < n ==> pool.backends[b] == Backend(Address(b), 1.0)
    ensures UsesFnv(pool)
  {
    Pool(seq(n, b requires 0 <= b => Backend(Address(b), 1.0)), key => Fnv1a(key))
  }

  lemma EntryFields(pool: Pool, b: nat)
    requires b < |pool.backends| && UsesFnv(pool)
    ensures var address := pool.backends[b].address;
      && pool.EntryOf(b).backend == b
      && pool.EntryOf(b).offset == Fnv1a(address) % TABLE_SIZE
      && pool.EntryOf(b).skip == Fnv1a(address + [0xFF]) % (TABLE_SIZE - 1) + 1
  {
    hide Fnv1a;
  }

  lemma Residues()
    ensures 0xf46e3bfe1ad31c19 % TABLE_SIZE == 18647 && 0x5e819f2a5aef631d % TABLE_SIZE == 18647
    ensures 0x85a556f884c6b906 % (TABLE_SIZE - 1) == 47366 && 0x88ccf470cd0a6343 % TABLE_SIZE == 477
  {
  }

  /** The first two addresses prefer the same slot, and the second's next choice is the third's first. */
  lemma ContendedEntries(n: nat)
    requires 3 <= n
    ensures var pool := ContendedPool(n);
      && pool.EntryOf(0).offset == 18647 && pool.EntryOf(0).backend == 0
      && pool.EntryOf(1) == Entry(1, 18647, 47367)
      && pool.EntryOf(2).offset == 477 && pool.EntryOf(2).backend == 2
  {
    hide Fnv1a, Mixed, First, Second, Third, ContendedPool, Pool.EntryOf, UsesFnv;
    FirstHash();
    SecondHash();
    SecondMarkedHash();
    ThirdHash();
    Residues();
    EntryFields(ContendedPool(n), 0);
    EntryFields(ContendedPool(n), 1);
    EntryFields(ContendedPool(n), 2);
  }

  lemma ContendedSecondSlot(lo: nat, n: nat)
    requires lo <= 1 && 3 <= n
    ensures var e0, e1 := ContendedPool(n).EntryOf(lo), ContendedPool(n).EntryOf(lo + 1);
      SecondSlot(e0, e1, TABLE_SIZE) == 477 != e0.offset && e1.backend == lo + 1
  {
    hide ContendedPool, Pool.EntryOf, Address;
    ContendedEntries(n);
    if lo == 0 { DivModUnique(18647 + 47367, TABLE_SIZE, 1, 477); }
  }

  /** Equal weights give every listed backend one entry. */
  lemma {:induction false} UnitEntries(pool: Pool, alive: seq<nat>, n: nat)
    requires Indices(pool, alive) && n <= |alive|
    requires forall b :: 0 <= b < |pool.backends| ==> pool.backends[b].weight == 1.0
    ensures |EntriesOf(pool, alive, 1.0, n)| == n
    ensures forall k :: 0 <= k < n ==> EntriesOf(pool, alive, 1.0, n)[k] == pool.EntryOf(alive[k])
  {
    if n > 0 {
      UnitEntries(pool, alive, n - 1);
      assert RepetitionsFor(1.0, 1.0) == 1;
    }
  }

  lemma UnitWeightedEntries(pool: Pool, alive: seq<nat>)
    requires Indices(pool, alive) && alive != []
    requires forall b :: 0 <= b < |pool.backends| ==> pool.backends[b].weight == 1.0
    ensures |WeightedEntries(pool, alive)| == |alive|
    ensures forall k :: 0 <= k < |alive| ==> WeightedEntries(pool, alive)[k] == pool.EntryOf(alive[k])
  {
    hide EntriesOf, MinWeight, Pool.EntryOf;
    UnitEntries(pool, alive, |alive|);
  }

  /** The numbers from lo up to n, in order. */
  ghost predicate IsRange(s: seq<nat>, lo: nat, n: nat) {
    && |s| == (if n <= lo then 0 else n - lo)
    && forall k :: 0 <= k < |s| ==> s[k] == lo + k
  }

  lemma RangeNext(s: seq<nat>, lo: nat, n: nat)
    requires IsRange(s, lo, n)
    ensures IsRange(if lo <= n then s + [n] else s, lo, n + 1)
  {
  }

  lemma AliveNext(flags: seq<bool>, n: nat)
    requires n < |flags|
    ensures AliveBelow(flags, n + 1) == if flags[n] then AliveBelow(flags, n) + [n] else AliveBelow(flags, n)
  {
  }

  lemma NoneAlive(flags: seq<bool>, lo: nat)
    ensures IsRange(AliveBelow(flags, 0), lo, 0)
  {
  }

  /** When the flags are up from index lo on, the live backends are lo, lo + 1 and so on. */
  lemma {:induction false} AliveFrom(lo: nat, n: nat, m: nat)
    requires m <= n
    ensures IsRange(AliveBelow(UpFrom(lo, n), m), lo, m)
  {
    hide IsRange, Injective, AliveBelow, UpFrom;
    var flags := UpFrom(lo, n);
    if m == 0 {
      NoneAlive(flags, lo);
    } else {
      AliveFrom(lo, n, m - 1);
      AliveNext(flags, m - 1);
      RangeNext(AliveBelow(flags, m - 1), lo, m - 1);
    }
  }

  /** The flags of the contended pool, down below lo. */
  function UpFrom(lo: nat, n: nat): (flags: seq<bool>)
    ensures |flags| == n
    ensures forall b :: 0 <= b < n ==> flags[b] == (lo <= b)
  {
    seq(n, b requires 0 <= b => lo <= b)
  }

  lemma FirstSlots(e: Entry, m: nat)
    requires 1 < m && e.offset < m
    ensures Walk(e, 0, m) == e.offset && Walk(e, 1, m) == (e.offset + e.skip) % m
  {
    DivModUnique(e.offset, m, 0, e.offset);
    assert 1 * e.skip == e.skip;
  }

  /** The first turn takes its entry's first preference. */
  lemma FirstTurn(entries: seq<Entry>, m: nat)
    requires IsPrime(m) && 3 <= m && GoodEntries(entries, m) && |entries| > 0
    ensures entries[0].offset < m && FullTable(entries, m)[entries[0].offset] == entries[0].backend
  {
    assert GoodEntry(entries[0], m);
    FirstSlots(entries[0], m);
    DivModUnique(0, |entries|, 0, 0);
    var t0 := Fill(entries, m, 0);
    hide Walk;
    assert FirstFree(entries[0], t0, 0) == 0;
    SlotIsOwned(entries, m, 0, m);
  }

  /** The slot of the second turn: the entry's first preference, or its second when the first turn took that. */
  function SecondSlot(e0: Entry, e1: Entry, m: nat): nat
    requires 0 < m
  {
    if e1.offset != e0.offset then e1.offset else (e1.offset + e1.skip) % m
  }

  lemma SecondTurn(entries: seq<Entry>, m: nat)
    requires IsPrime(m) && 3 <= m && GoodEntries(entries, m) && |entries| >= 2
    requires SecondSlot(entries[0], entries[1], m) != entries[0].offset
    ensures SecondSlot(entries[0], entries[1], m) < m
    ensures FullTable(entries, m)[SecondSlot(entries[0], entries[1], m)] == entries[1].backend
  {
    assert GoodEntry(entries[0], m) && GoodEntry(entries[1], m);
    FirstSlots(entries[0], m);
    FirstSlots(entries[1], m);
    DivModUnique(0, |entries|, 0, 0);
    DivModUnique(1, |entries|, 0, 1);
    var t0, t1 := Fill(entries, m, 0), Fill(entries, m, 1);
    hide Walk;
    assert FirstFree(entries[0], t0, 0) == 0;
    assert t1 == t0[entries[0].offset := entries[0].backend];
    assert SlotOf(entries, m, 1) == SecondSlot(entries[0], entries[1], m);
    SlotIsOwned(entries, m, 1, m);
  }

  lemma ContendedAlive(lo: nat, n: nat)
    requires lo <= 1 && lo + 2 <= n
    ensures var alive := AliveBelow(UpFrom(lo, n), n); |alive| >= 2 && alive[0] == lo && alive[1] == lo + 1
  {
    hide UpFrom, AliveBelow;
    AliveFrom(lo, n, n);
  }

  /** The entries of the contended pool: one for each live backend, in order. */
  lemma ContendedList(lo: nat, n: nat)
    requires lo <= 1 && lo + 2 <= n < EMPTY
    ensures Indices(ContendedPool(n), AliveBelow(UpFrom(lo, n), n))
    ensures var es := WeightedEntries(ContendedPool(n), AliveBelow(UpFrom(lo, n), n));
      && |es| >= 2 && GoodEntries(es, TABLE_SIZE)
      && es[0] == ContendedPool(n).EntryOf(lo) && es[1] == ContendedPool(n).EntryOf(lo + 1)
  {
    hide ContendedPool, UpFrom, Address, GoodEntry, WeightedEntries, AliveBelow, Pool.EntryOf;
    var pool, alive := ContendedPool(n), AliveBelow(UpFrom(lo, n), n);
    ContendedAlive(lo, n);
    WeightedEntriesGood(pool, alive);
    UnitWeightedEntries(pool, alive);
  }

  /** With the first three backends up, or the second and third, slot 477 goes to the second live one. */
  lemma ContendedSlot(lo: nat, n: nat)
    requires lo <= 1 && 3 <= n < EMPTY
    ensures |TableFor(ContendedPool(n), UpFrom(lo, n))| == TABLE_SIZE
    ensures TableFor(ContendedPool(n), UpFrom(lo, n))[477] == lo + 1
  {
    hide FullTable, IsPrime, GoodEntry, WeightedEntries, AliveBelow, ContendedPool, UpFrom, Address, Pool.EntryOf,
      SecondSlot;
    ContendedList(lo, n);
    ContendedSecondSlot(lo, n);
    TableSizeIsPrime();
    SecondTurn(WeightedEntries(ContendedPool(n), AliveBelow(UpFrom(lo, n), n)), TABLE_SIZE);
  }

  /** With the first backend up, slot 18647 is its own. */
  lemma ContendedFirstSlot(n: nat)
    requires 3 <= n < EMPTY
    ensures |TableFor(ContendedPool(n), UpFrom(0, n))| == TABLE_SIZE
    ensures TableFor(ContendedPool(n), UpFrom(0, n))[18647] == 0
  {
    hide FullTable, IsPrime, GoodEntry, WeightedEntries, AliveBelow, ContendedPool, UpFrom, Address, Pool.EntryOf;
    ContendedList(0, n);
    ContendedEntries(n);
    TableSizeIsPrime();
    FirstTurn(WeightedEntries(ContendedPool(n), AliveBelow(UpFrom(0, n), n)), TABLE_SIZE);
  }

  /**
    With two or more survivors traffic passes between them: when 10.0.14.132:53 fails, slot 477 moves from
    10.0.0.5:53 to 10.0.4.137:53, whatever further backends there are.
   */
  lemma SurvivorsSwap(n: nat)
    requires 2 <= n < EMPTY - 1
    ensures UsesFnv(ContendedPool(n + 1)) && LeavesSurvivors(ContendedPool(n + 1), UpFrom(0, n + 1), 0, n)
    ensures ContendedPool(n + 1).backends[..3] == [Backend(First(), 1.0), Backend(Second(), 1.0), Backend(Third(), 1.0)]
    ensures UpFrom(0, n + 1)[0 := false] == UpFrom(1, n + 1)
    ensures |TableFor(ContendedPool(n + 1), UpFrom(0, n + 1))| == TABLE_SIZE
    ensures |TableFor(ContendedPool(n + 1), UpFrom(1, n + 1))| == TABLE_SIZE
    ensures TableFor(ContendedPool(n + 1), UpFrom(0, n + 1))[477] == 1
    ensures TableFor(ContendedPool(n + 1), UpFrom(1, n + 1))[477] == 2
  {
    hide TableFor, AliveBelow, ContendedPool, UpFrom, First, Second, Third, UsesFnv;
    AliveFrom(1, n + 1, n + 1);
    assert UpFrom(0, n + 1)[0 := false] == UpFrom(1, n + 1);
    ContendedSlot(0, n + 1);
    ContendedSlot(1, n + 1);
  }

  /**
    The documented guarantee, exactly: with the program's hash function and over all addresses, weights and flags, a
    failure is sure to move only the failed backend's slots if and only if it leaves at most one backend.
   */
  lemma MinimalDisruptionExact(n: nat)
    requires n < EMPTY - 1
    ensures MinimalDisruptionGuaranteed(n) <==> n <= 1
  {
    hide TableFor, ContendedPool, AliveBelow, UsesFnv;
    if n <= 1 {
      forall pool, flags, b | LeavesSurvivors(pool, flags, b, n)
        ensures OnlyFailedMoves(pool, flags, b)
      {
        OneSurvivor(pool, flags, b, n);
      }
    } else {
      SurvivorsSwap(n);
      assert !OnlyFailedMoves(ContendedPool(n + 1), UpFrom(0, n + 1), 0);
    }
  }
}
