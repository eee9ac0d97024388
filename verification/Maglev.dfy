/** The Maglev balancer: weighted entries, the lazily rebuilt lookup table, and runs of lookups and health flips. */
module Maglev {
  import opened Net
  import opened Backends
  import opened Primes
  import opened Counting
  import opened MaglevFill
  import opened MaglevCounts
  import opened LookupTable
  import TableProtocol

  const TABLE_SIZE: nat := 65537

  /** The configured backends and the hash function, which stays uninterpreted. */
  datatype Pool = Pool(backends: seq<Backend>, hash: seq<Byte> -> nat)
  {
    function Permutation(b: nat): (nat, nat)
      requires b < |backends|
    {
      (hash(backends[b].address) % TABLE_SIZE,
       hash(backends[b].address + [0xFF]) % (TABLE_SIZE - 1) + 1)
    }

    function EntryOf(b: nat): Entry
      requires b < |backends|
    {
      Entry(b, Permutation(b).0, Permutation(b).1)
    }

    function KeyIndex(key: seq<Byte>): (i: nat)
      ensures i < TABLE_SIZE
    {
      hash(key) % TABLE_SIZE
    }

    /** As every `Vec`, the list of backends is shorter than `usize::MAX`. */
    predicate Valid() {
      |backends| < 0xFFFF_FFFF_FFFF_FFFF
    }

    /** What the configuration check demands of every weight. */
    ghost predicate PositiveWeights() {
      forall b :: 0 <= b < |backends| ==> backends[b].weight > 0.0
    }
  }

  /** `f64::round`, half away from zero. */
  function Round(x: real): int {
    if x >= 0.0 then (x + 0.5).Floor else -((0.5 - x).Floor)
  }

  /** The nearest whole number, and of two equally near ones the one further from zero. */
  lemma RoundExact(x: real, n: int)
    ensures Round(x) == n <==>
      if x >= 0.0 then -0.5 < n as real - x <= 0.5 else -0.5 <= n as real - x < 0.5
  {
  }

  /**
    The slot of a key is the one index below 65537 that is congruent to its hash, so two keys share a slot exactly when
    their hashes are congruent.
   */
  lemma KeySlot(pool: Pool, key: seq<Byte>, other: seq<Byte>, i: nat)
    requires i < 65537
    ensures pool.KeyIndex(key) == i <==> (pool.hash(key) - i) % 65537 == 0
    ensures pool.KeyIndex(key) == pool.KeyIndex(other) <==> (pool.hash(key) - pool.hash(other)) % 65537 == 0
  {
  }

  predicate Indices(pool: Pool, alive: seq<nat>) {
    forall k :: 0 <= k < |alive| ==> alive[k] < |pool.backends|
  }

  /** The smallest weight among the listed backends. */
  function MinWeight(pool: Pool, alive: seq<nat>): (w: real)
    requires Indices(pool, alive) && alive != []
    ensures exists k :: 0 <= k < |alive| && pool.backends[alive[k]].weight == w
    ensures forall k :: 0 <= k < |alive| ==> w <= pool.backends[alive[k]].weight
  {
    var last := pool.backends[alive[|alive| - 1]].weight;
    if |alive| == 1 then last
    else
      var w := MinWeight(pool, alive[..|alive| - 1]);
      if w <= last then w else last
  }

  function RepetitionsFor(weight: real, min: real): nat
    requires min > 0.0
  {
    var r := Round(weight / min);
    if r < 1 then 1 else r
  }

  /** The entries of the first n listed backends, each repeated by its rounded relative weight. */
  function EntriesOf(pool: Pool, alive: seq<nat>, min: real, n: nat): seq<Entry>
    requires Indices(pool, alive) && min > 0.0 && n <= |alive|
  {
    if n == 0 then []
    else
      var b := alive[n - 1];
      EntriesOf(pool, alive, min, n - 1)
      + seq(RepetitionsFor(pool.backends[b].weight, min), _ => pool.EntryOf(b))
  }

  function WeightedEntries(pool: Pool, alive: seq<nat>): seq<Entry>
    requires Indices(pool, alive)
  {
    if alive == [] || MinWeight(pool, alive) <= 0.0 then []
    else EntriesOf(pool, alive, MinWeight(pool, alive), |alive|)
  }

  method BuildWeightedEntries(pool: Pool, alive: seq<nat>) returns (entries: seq<Entry>)
    requires Indices(pool, alive)
    ensures entries == WeightedEntries(pool, alive)
  {
    entries := [];
    if alive == [] {
      return;
    }
    var min := pool.backends[alive[0]].weight;
    for k := 1 to |alive|
      invariant min == MinWeight(pool, alive[..k])
    {
      var w := pool.backends[alive[k]].weight;
      assert alive[..k + 1][..k] == alive[..k];
      min := if min <= w then min else w;
    }
    assert alive[..|alive|] == alive;
    if min <= 0.0 {
      return;
    }
    for k := 0 to |alive|
      invariant entries == EntriesOf(pool, alive, min, k)
    {
      var b := alive[k];
      var repetitions := RepetitionsFor(pool.backends[b].weight, min);
      var entry := pool.EntryOf(b);
      ghost var before := entries;
      for r := 0 to repetitions
        invariant entries == before + seq(r, _ => entry)
      {
        entries := entries + [entry];
        assert seq(r + 1, _ => entry) == seq(r, _ => entry) + [entry];
      }
    }
  }

  /** The lookup table for the given health flags; empty when there is nothing to choose from. */
  function TableFor(pool: Pool, flags: seq<bool>): seq<nat>
    requires |flags| == |pool.backends|
  {
    var entries := WeightedEntries(pool, AliveBelow(flags, |flags|));
    if entries == [] then [] else FullTable(entries, TABLE_SIZE)
  }

  lemma {:induction false} EntriesAreGood(pool: Pool, alive: seq<nat>, min: real, n: nat)
    requires pool.Valid() && Indices(pool, alive) && min > 0.0 && n <= |alive|
    ensures forall e :: 0 <= e < |EntriesOf(pool, alive, min, n)| ==>
      GoodEntry(EntriesOf(pool, alive, min, n)[e], TABLE_SIZE)
    ensures forall e :: 0 <= e < |EntriesOf(pool, alive, min, n)| ==> EntriesOf(pool, alive, min, n)[e].backend in alive
    ensures n > 0 ==> EntriesOf(pool, alive, min, n) != []
  {
    if n > 0 {
      EntriesAreGood(pool, alive, min, n - 1);
    }
  }

  /** Entry lists whose entries are their backends' own and come in the order of the backends, none beyond hi. */
  ghost predicate OrderedEntries(pool: Pool, es: seq<Entry>, hi: nat) {
    && (forall e :: 0 <= e < |es| ==> es[e].backend < |pool.backends| && es[e] == pool.EntryOf(es[e].backend))
    && (forall e :: 0 <= e < |es| ==> es[e].backend <= hi)
    && (forall d, e :: 0 <= d < e < |es| ==> es[d].backend <= es[e].backend)
  }

  lemma OrderedMore(pool: Pool, es: seq<Entry>, hi: nat, b: nat, r: nat)
    requires b < |pool.backends| && OrderedEntries(pool, es, hi) && (es == [] || hi <= b)
    ensures OrderedEntries(pool, es + seq(r, _ => pool.EntryOf(b)), b)
  {
    hide Pool.Permutation;
    var more := es + seq(r, _ => pool.EntryOf(b));
    forall e | 0 <= e < |more|
      ensures more[e] == if e < |es| then es[e] else pool.EntryOf(b)
    {
    }
  }

  /** Every entry is its backend's own, and they come in the order of the list. */
  lemma {:induction false} EntriesInOrder(pool: Pool, alive: seq<nat>, min: real, n: nat)
    requires Indices(pool, alive) && min > 0.0 && n <= |alive|
    requires forall i, j :: 0 <= i < j < |alive| ==> alive[i] < alive[j]
    ensures OrderedEntries(pool, EntriesOf(pool, alive, min, n), if n == 0 then 0 else alive[n - 1])
  {
    hide OrderedEntries;
    if n == 0 {
      NoEntries(pool);
    } else {
      var b := alive[n - 1];
      EntriesInOrder(pool, alive, min, n - 1);
      OrderedMore(pool, EntriesOf(pool, alive, min, n - 1), if n == 1 then 0 else alive[n - 2], b,
                  RepetitionsFor(pool.backends[b].weight, min));
    }
  }

  lemma NoEntries(pool: Pool)
    ensures OrderedEntries(pool, [], 0)
  {
  }

  lemma {:induction false} RepetitionsAppend(xs: seq<Entry>, ys: seq<Entry>, b: nat)
    ensures Repetitions(xs + ys, b, |xs + ys|) == Repetitions(xs, b, |xs|) + Repetitions(ys, b, |ys|)
  {
    if ys == [] {
      assert xs + ys == xs;
    } else {
      var last := |ys| - 1;
      RepetitionsAppend(xs, ys[..last], b);
      assert xs + ys == (xs + ys[..last]) + [ys[last]];
      RepetitionsPrefix(xs + ys, b, |xs| + last);
      RepetitionsPrefix(ys, b, last);
      assert (xs + ys)[..|xs| + last] == xs + ys[..last];
    }
  }

  lemma {:induction false} RepetitionsPrefix(xs: seq<Entry>, b: nat, n: nat)
    requires n <= |xs|
    ensures Repetitions(xs, b, n) == Repetitions(xs[..n], b, n)
  {
    RepetitionsAgree(xs, xs[..n], b, n);
  }

  lemma {:induction false} RepetitionsAgree(xs: seq<Entry>, ys: seq<Entry>, b: nat, n: nat)
    requires n <= |xs| && n <= |ys| && xs[..n] == ys[..n]
    ensures Repetitions(xs, b, n) == Repetitions(ys, b, n)
  {
    if n > 0 {
      assert xs[..n][n - 1] == ys[..n][n - 1];
      assert xs[..n - 1] == xs[..n][..n - 1];
      assert ys[..n - 1] == ys[..n][..n - 1];
      RepetitionsAgree(xs, ys, b, n - 1);
    }
  }

  lemma {:induction false} RepetitionsOfCopies(e: Entry, r: nat, b: nat)
    ensures Repetitions(seq(r, _ => e), b, r) == if e.backend == b then r else 0
  {
    if r > 0 {
      RepetitionsOfCopies(e, r - 1, b);
      RepetitionsAgree(seq(r, _ => e), seq(r - 1, _ => e), b, r - 1);
    }
  }

  /** Each listed backend gets its own number of entries, and nobody else gets any. */
  lemma {:induction false} EntryCounts(pool: Pool, alive: seq<nat>, min: real, n: nat, b: nat)
    requires Indices(pool, alive) && Injective(alive) && min > 0.0 && n <= |alive|
    ensures var es := EntriesOf(pool, alive, min, n);
      Repetitions(es, b, |es|) == if b in alive[..n] then RepetitionsFor(pool.backends[b].weight, min) else 0
  {
    if n > 0 {
      EntryCounts(pool, alive, min, n - 1, b);
      var a := alive[n - 1];
      var copies := seq(RepetitionsFor(pool.backends[a].weight, min), _ => pool.EntryOf(a));
      RepetitionsAppend(EntriesOf(pool, alive, min, n - 1), copies, b);
      RepetitionsOfCopies(pool.EntryOf(a), |copies|, b);
      assert alive[..n] == alive[..n - 1] + [a];
      assert b == a ==> b !in alive[..n - 1];
    }
  }

  /** The repetition count is the exact weight ratio rounded to the nearest whole number, halves upwards. */
  lemma RepetitionsNearRatio(weight: real, min: real)
    requires 0.0 < min <= weight
    ensures RepetitionsFor(weight, min) >= 1
    ensures -0.5 < RepetitionsFor(weight, min) as real - weight / min <= 0.5
  {
  }

  lemma MinWeightBounds(pool: Pool, alive: seq<nat>, b: nat)
    requires pool.PositiveWeights() && Indices(pool, alive) && alive != []
    ensures MinWeight(pool, alive) > 0.0
    ensures b in alive ==> MinWeight(pool, alive) <= pool.backends[b].weight
  {
    var min := MinWeight(pool, alive);
    hide MinWeight;
    var k :| 0 <= k < |alive| && pool.backends[alive[k]].weight == min;
    if b in alive {
      var j :| 0 <= j < |alive| && alive[j] == b;
      assert min <= pool.backends[alive[j]].weight;
    }
  }

  /** The entries are usable by the fill, belong to listed backends, and exist when weights are positive. */
  lemma WeightedEntriesGood(pool: Pool, alive: seq<nat>)
    requires pool.Valid() && Indices(pool, alive)
    ensures WeightedEntries(pool, alive) != [] ==> GoodEntries(WeightedEntries(pool, alive), TABLE_SIZE)
    ensures forall e :: 0 <= e < |WeightedEntries(pool, alive)| ==> WeightedEntries(pool, alive)[e].backend in alive
    ensures alive == [] ==> WeightedEntries(pool, alive) == []
    ensures alive != [] && pool.PositiveWeights() ==> WeightedEntries(pool, alive) != []
  {
    if alive != [] {
      if pool.PositiveWeights() { MinWeightBounds(pool, alive, alive[0]); }
      hide MinWeight, EntriesOf, GoodEntry;
      if MinWeight(pool, alive) > 0.0 {
        EntriesAreGood(pool, alive, MinWeight(pool, alive), |alive|);
      }
    }
  }

  lemma FullTableOwners(entries: seq<Entry>, m: nat, flags: seq<bool>)
    requires IsPrime(m) && GoodEntries(entries, m)
    requires forall e :: 0 <= e < |entries| ==> entries[e].backend < |flags| && flags[entries[e].backend]
    ensures forall i :: 0 <= i < m ==> FullTable(entries, m)[i] < |flags| && flags[FullTable(entries, m)[i]]
  {
    hide FullTable;
    forall i: nat | i < m
      ensures FullTable(entries, m)[i] < |flags| && flags[FullTable(entries, m)[i]]
    {
      var t := FillComplete(entries, m, i);
    }
  }

  /** A table is empty or has one slot per index, and every slot names a backend that was up when it was built. */
  lemma TableShape(pool: Pool, flags: seq<bool>)
    requires pool.Valid() && |flags| == |pool.backends|
    ensures TableFor(pool, flags) != [] ==> |TableFor(pool, flags)| == TABLE_SIZE
    ensures forall i :: 0 <= i < |TableFor(pool, flags)| ==>
      TableFor(pool, flags)[i] < |flags| && flags[TableFor(pool, flags)[i]]
    ensures !SomeAlive(flags) ==> TableFor(pool, flags) == []
    ensures SomeAlive(flags) && pool.PositiveWeights() ==> TableFor(pool, flags) != []
  {
    var entries := WeightedEntries(pool, AliveBelow(flags, |flags|));
    SomeAliveListed(flags);
    WeightedEntriesGood(pool, AliveBelow(flags, |flags|));
    hide FullTable, WeightedEntries, AliveBelow, GoodEntry;
    if entries != [] {
      TableSizeIsPrime();
      FullTableOwners(entries, TABLE_SIZE, flags);
    }
  }

  /** How many entries backend b has. */
  lemma WeightedEntryCounts(pool: Pool, alive: seq<nat>, b: nat)
    requires pool.PositiveWeights() && Indices(pool, alive) && Injective(alive) && alive != []
    ensures MinWeight(pool, alive) > 0.0
    ensures Repetitions(WeightedEntries(pool, alive), b, |WeightedEntries(pool, alive)|)
      == if b in alive then RepetitionsFor(pool.backends[b].weight, MinWeight(pool, alive)) else 0
  {
    MinWeightBounds(pool, alive, b);
    hide MinWeight, EntriesOf, Repetitions, RepetitionsFor;
    EntryCounts(pool, alive, MinWeight(pool, alive), |alive|, b);
    assert alive[..|alive|] == alive;
  }

  /** The slots of a backend with r entries among n, of which `early` are in time for the begun last round. */
  ghost predicate FairlyServed(owned: nat, r: nat, early: nat, n: nat, m: nat)
    requires 0 < n
  {
    && owned == r * (m / n) + early
    && r * (m / n) <= owned <= r * CeilDiv(m, n)
    && (n <= m && r > 0 ==> owned > 0)
  }

  lemma FullTableIsFair(entries: seq<Entry>, m: nat, b: nat)
    requires IsPrime(m) && GoodEntries(entries, m) && b != EMPTY
    ensures FairlyServed(Count(FullTable(entries, m), b), Repetitions(entries, b, |entries|),
                         Repetitions(entries, b, TurnIndex(m, |entries|)), |entries|, m)
  {
    SlotCounts(entries, m, b);
    hide FullTable, Count, CeilDiv, Repetitions;
    if |entries| <= m && Repetitions(entries, b, |entries|) > 0 {
      ServedExactly(entries, m, b);
      RepetitionsFound(entries, b, |entries|);
      CountsOccurrence(FullTable(entries, m), b);
    }
  }

  /**
    Exact fairness of the table over backends: with E entries in all, a live backend of weight w owns floor(M/E) slots
    for each of its r entries and one more for each of them among the first M mod E, where r is w over the smallest
    live weight, rounded, halves upwards; it owns at least one slot when E is at most M, and a dead backend owns none.
   */
  lemma TableIsFair(pool: Pool, flags: seq<bool>, b: nat, alive: seq<nat>, entries: seq<Entry>)
    requires pool.Valid() && pool.PositiveWeights() && |flags| == |pool.backends| && b < |flags| && SomeAlive(flags)
    requires alive == AliveBelow(flags, |flags|) && entries == WeightedEntries(pool, alive)
    ensures alive != [] && MinWeight(pool, alive) > 0.0 && entries != []
    ensures !flags[b] ==> Count(TableFor(pool, flags), b) == 0
    ensures flags[b] ==> var r := RepetitionsFor(pool.backends[b].weight, MinWeight(pool, alive));
      && r >= 1 && -0.5 < r as real - pool.backends[b].weight / MinWeight(pool, alive) <= 0.5
      && FairlyServed(Count(TableFor(pool, flags), b), r, Repetitions(entries, b, TurnIndex(TABLE_SIZE, |entries|)),
                      |entries|, TABLE_SIZE)
  {
    SomeAliveListed(flags);
    WeightedEntriesGood(pool, alive);
    WeightedEntryCounts(pool, alive, b);
    MinWeightBounds(pool, alive, b);
    assert b in alive <==> flags[b];
    assert TableFor(pool, flags) == FullTable(entries, TABLE_SIZE);
    TableSizeIsPrime();
    FullTableIsFair(entries, TABLE_SIZE, b);
    if flags[b] {
      hide *;
      RepetitionsNearRatio(pool.backends[b].weight, MinWeight(pool, alive));
    }
  }

  /** The Maglev table as a lazily rebuilt lookup table. */
  function EngineOf(pool: Pool): Engine {
    Engine(|pool.backends|, TABLE_SIZE, flags => if |flags| == |pool.backends| then TableFor(pool, flags) else [],
           key => pool.KeyIndex(key))
  }

  lemma EngineIsSound(pool: Pool)
    requires pool.Valid()
    ensures Sound(EngineOf(pool))
    ensures pool.PositiveWeights() ==> Serves(EngineOf(pool))
  {
    forall flags: seq<bool> | |flags| == |pool.backends|
      ensures SoundFor(EngineOf(pool).build(flags), TABLE_SIZE, flags)
      ensures pool.PositiveWeights() && SomeAlive(flags) ==> EngineOf(pool).build(flags) != []
    {
      TableShape(pool, flags);
    }
  }

  /** Availability of the Maglev table over whole runs in which each lookup is one step. */
  lemma Availability(pool: Pool, flags: seq<bool>, ops: seq<Op>, key: seq<Byte>)
    requires pool.Valid() && pool.PositiveWeights() && |flags| == |pool.backends|
    ensures Sound(EngineOf(pool))
    ensures ResultAfter(EngineOf(pool), Start(EngineOf(pool), flags), ops, key).Some? <==>
      && SomeAlive(Run(EngineOf(pool), Start(EngineOf(pool), flags), ops).flags)
      && SomeAlive(flags)
      && AliveAtLookups(EngineOf(pool), Start(EngineOf(pool), flags), ops)
  {
    hide Sound, Serves, TableFor, Run, ResultAfter, AliveAtLookups;
    EngineIsSound(pool);
    LookupTable.Availability(EngineOf(pool), flags, ops, key);
  }

  /**
    Availability of the Maglev table when lookups, flag reads, rebuilds and health flips interleave: a lookup that
    then runs undisturbed succeeds exactly when something is up and the flags that the last rebuild read did not
    all read as down.
   */
  lemma AvailabilityInterleaved(pool: Pool, flags: seq<bool>, actions: seq<TableProtocol.Action>, t: nat)
    requires pool.Valid() && pool.PositiveWeights() && |flags| == |pool.backends|
    ensures var engine := EngineOf(pool);
      && Sound(engine) && TableProtocol.Sane(engine, TableProtocol.Begin(engine, flags))
      && var begin := TableProtocol.Begin(engine, flags);
      var s := TableProtocol.Execute(engine, begin, actions);
      t in s.tasks && s.tasks[t].Asked? ==>
        && t in TableProtocol.Solo(engine, s, t).tasks && TableProtocol.Solo(engine, s, t).tasks[t].Answered?
        && (TableProtocol.Solo(engine, s, t).tasks[t].result.Some? <==>
              SomeAlive(TableProtocol.LastPublished(engine, begin, actions)) && SomeAlive(s.flags))
  {
    hide *;
    EngineIsSound(pool);
    var engine := EngineOf(pool);
    EngineCount(pool);
    TableProtocol.BeginSane(engine, flags);
    var begin := TableProtocol.Begin(engine, flags);
    var s := TableProtocol.Execute(engine, begin, actions);
    if t in s.tasks && s.tasks[t].Asked? {
      TableProtocol.AvailabilityExact(engine, begin, actions, t);
    }
  }

  lemma EngineCount(pool: Pool)
    ensures EngineOf(pool).count == |pool.backends|
  {
  }

  /** The work of a rebuild: filter, weigh, fill. */
  method ComputeTable(pool: Pool, flags: seq<bool>) returns (table: seq<nat>)
    requires pool.Valid() && |flags| == |pool.backends|
    ensures table == EngineOf(pool).build(flags)
  {
    hide FullTable;
    var alive := LiveIndices(flags);
    if alive == [] {
      return [];
    }
    var entries := BuildWeightedEntries(pool, alive);
    if entries == [] {
      return [];
    }
    WeightedEntriesGood(pool, alive);
    TableSizeIsPrime();
    var filled, _ := PopulateTable(entries, TABLE_SIZE);
    table := filled[..];
  }

  /** The balancer object: the flags are set by the health checker, the table is replaced as a whole. */
  class Balancer {
    const pool: Pool
    var flags: seq<bool>
    var table: seq<nat>
    ghost var built: seq<bool>

    ghost function Abstract(): State
      reads this
    {
      State(flags, table, built)
    }

    ghost predicate Valid()
      reads this
    {
      pool.Valid() && Sound(EngineOf(pool)) && Consistent(EngineOf(pool), Abstract())
    }

    constructor (pool: Pool, flags: seq<bool>)
      requires pool.Valid() && |flags| == |pool.backends|
      ensures Valid() && this.pool == pool && Abstract() == Start(EngineOf(pool), flags)
    {
      this.pool, this.flags := pool, flags;
      table, built := [], flags;
      new;
      hide Sound, TableFor;
      EngineIsSound(pool);
      RebuildTable();
    }

    method SetAlive(b: nat, up: bool)
      requires Valid() && b < |flags|
      modifies this
      ensures Valid() && Abstract() == Step(EngineOf(pool), old(Abstract()), Op.SetAlive(b, up)).0
      ensures flags == old(flags)[b := up] && table == old(table)
    {
      hide Sound, TableFor;
      flags := flags[b := up];
    }

    method RebuildTable()
      requires pool.Valid() && Sound(EngineOf(pool)) && |flags| == |pool.backends|
      modifies this
      ensures Valid() && Abstract() == Rebuilt(EngineOf(pool), old(Abstract()))
    {
      hide Sound, TableFor;
      built := flags;
      table := ComputeTable(pool, flags);
    }

    method Next(key: seq<Byte>) returns (r: Option<nat>)
      requires Valid()
      modifies this
      ensures Valid()
      ensures (Abstract(), r) == LookupStep(EngineOf(pool), old(Abstract()), key)
    {
      hide Sound, TableFor;
      SoundIndex(EngineOf(pool), key);
      BuiltShape(EngineOf(pool), built);
      BuiltShape(EngineOf(pool), flags);
      if table == [] {
        return None;
      }
      var index := pool.KeyIndex(key);
      var b := table[index];
      if b == EMPTY || b >= |pool.backends| {
        return None;
      }
      if flags[b] {
        return Some(b);
      }
      RebuildTable();
      if table == [] {
        return None;
      }
      b := table[index];
      if b == EMPTY || b >= |pool.backends| {
        return None;
      }
      r := None;
      if flags[b] {
        r := Some(b);
      }
    }
  }
}
