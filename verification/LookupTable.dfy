/**
  A lookup table that is built from the health flags and rebuilt lazily, when a lookup meets a backend that is down.
  Nothing here depends on how the table is filled, only on what `Sound` says of it. Here a lookup is a single step;
  `TableProtocol` takes it apart.
 */
module LookupTable {
  import opened Net
  import opened Backends
  import opened MaglevFill

  /** The number of backends, the table size, the table for given flags, and the slot of a key. */
  datatype Engine = Engine(count: nat, size: nat, build: seq<bool> -> seq<nat>, index: seq<Byte> -> nat)

  /** A built table is empty or complete, and names only backends that were up; there is none when nothing is up. */
  ghost predicate SoundFor(table: seq<nat>, size: nat, flags: seq<bool>) {
    && (table != [] ==> |table| == size)
    && (forall i :: 0 <= i < |table| ==> table[i] < |flags| && flags[table[i]])
    && (!SomeAlive(flags) ==> table == [])
  }

  ghost predicate Sound(engine: Engine) {
    && engine.count < EMPTY && 0 < engine.size
    && (forall key :: engine.index(key) < engine.size)
    && (forall flags: seq<bool> :: |flags| == engine.count ==> SoundFor(engine.build(flags), engine.size, flags))
  }

  /** Whenever something is up there is a table. */
  ghost predicate Serves(engine: Engine) {
    forall flags: seq<bool> :: |flags| == engine.count && SomeAlive(flags) ==> engine.build(flags) != []
  }

  lemma SoundIndex(engine: Engine, key: seq<Byte>)
    requires Sound(engine)
    ensures engine.index(key) < engine.size && engine.count < EMPTY
  {
  }

  lemma BuiltShape(engine: Engine, flags: seq<bool>)
    requires Sound(engine) && |flags| == engine.count
    ensures SoundFor(engine.build(flags), engine.size, flags)
    ensures Serves(engine) ==> (engine.build(flags) == [] <==> !SomeAlive(flags))
  {
  }

  /** Health flags, the lookup table, and (history) the flags the table was last built from. */
  datatype State = State(flags: seq<bool>, table: seq<nat>, built: seq<bool>)

  datatype Op = SetAlive(backend: nat, up: bool) | Lookup(key: seq<Byte>)

  function Start(engine: Engine, flags: seq<bool>): State
    requires |flags| == engine.count
  {
    State(flags, engine.build(flags), flags)
  }

  /** The table is the fill for the flags of the last rebuild. */
  ghost predicate Consistent(engine: Engine, s: State) {
    && |s.flags| == |s.built| == engine.count
    && s.table == engine.build(s.built)
  }

  function Rebuilt(engine: Engine, s: State): State
    requires |s.flags| == engine.count
  {
    State(s.flags, engine.build(s.flags), s.flags)
  }

  /** What a slot answers: its backend, if there is one and it is up. */
  function Answer(s: State, i: nat): Option<nat>
    requires i < |s.table|
  {
    var b := s.table[i];
    if b == EMPTY || b >= |s.flags| || !s.flags[b] then None else Some(b)
  }

  /** A lookup consults the table, rebuilds it when the slot's backend is down, and consults it once more. */
  function LookupStep(engine: Engine, s: State, key: seq<Byte>): (r: (State, Option<nat>))
    requires Sound(engine) && Consistent(engine, s)
    ensures Consistent(engine, r.0)
  {
    BuiltShape(engine, s.built);
    BuiltShape(engine, s.flags);
    SoundIndex(engine, key);
    var i := engine.index(key);
    if s.table == [] then (s, None)
    else if s.table[i] == EMPTY || s.table[i] >= engine.count then (s, None)
    else if Answer(s, i).Some? then (s, Answer(s, i))
    else
      var s' := Rebuilt(engine, s);
      if s'.table == [] then (s', None) else (s', Answer(s', i))
  }

  function Step(engine: Engine, s: State, op: Op): (r: (State, Option<nat>))
    requires Sound(engine) && Consistent(engine, s)
    ensures Consistent(engine, r.0)
  {
    match op
    case SetAlive(b, up) => (if b < |s.flags| then s.(flags := s.flags[b := up]) else s, None)
    case Lookup(key) => LookupStep(engine, s, key)
  }

  function Run(engine: Engine, s: State, ops: seq<Op>): (r: State)
    requires Sound(engine) && Consistent(engine, s)
    ensures Consistent(engine, r)
  {
    if ops == [] then s else Step(engine, Run(engine, s, ops[..|ops| - 1]), ops[|ops| - 1]).0
  }

  /** What a lookup would return after the given run. */
  function ResultAfter(engine: Engine, s: State, ops: seq<Op>, key: seq<Byte>): Option<nat>
    requires Sound(engine) && Consistent(engine, s)
  {
    LookupStep(engine, Run(engine, s, ops), key).1
  }

  /** A lookup never returns a backend that is down; it succeeds exactly when there is a table and something is up. */
  lemma LookupExact(engine: Engine, s: State, key: seq<Byte>)
    requires Sound(engine) && Consistent(engine, s)
    ensures var (s', r) := LookupStep(engine, s, key);
      && (r.Some? ==> r.value < |s.flags| && s.flags[r.value])
      && (r.Some? ==> s.table != [] && SomeAlive(s.flags))
      && (Serves(engine) && s.table != [] && SomeAlive(s.flags) ==> r.Some?)
      && (Serves(engine) ==> (s'.table == [] <==> s.table == [] || !SomeAlive(s.flags)))
  {
    hide Sound, Serves;
    SoundIndex(engine, key);
    BuiltShape(engine, s.built);
    BuiltShape(engine, s.flags);
    var (s', r) := LookupStep(engine, s, key);
    if r.Some? {
      assert s.flags[r.value];
    }
  }

  /** Something was up at every lookup of the run. */
  ghost predicate AliveAtLookups(engine: Engine, s: State, ops: seq<Op>)
    requires Sound(engine) && Consistent(engine, s)
  {
    forall k :: 0 <= k < |ops| && ops[k].Lookup? ==> SomeAlive(Run(engine, s, ops[..k]).flags)
  }

  lemma {:induction false} TableSurvives(engine: Engine, s: State, ops: seq<Op>)
    requires Sound(engine) && Serves(engine) && Consistent(engine, s)
    ensures Run(engine, s, ops).table != [] <==> s.table != [] && AliveAtLookups(engine, s, ops)
  {
    hide Sound, Serves, LookupStep, SomeAlive;
    if ops == [] {
    } else {
      var last := |ops| - 1;
      var s1 := Run(engine, s, ops[..last]);
      TableSurvives(engine, s, ops[..last]);
      assert forall k :: 0 <= k < last ==> ops[..last][..k] == ops[..k];
      match ops[last] {
        case SetAlive(_, _) =>
        case Lookup(key) => LookupExact(engine, s1, key);
      }
    }
  }

  /**
    Availability over whole runs, exactly: after any run from a fresh balancer a lookup returns a backend
    if and only if something is up now, something was up at construction, and something was up at every earlier
    lookup. One lookup during a full outage empties the table for ever.
   */
  lemma Availability(engine: Engine, flags: seq<bool>, ops: seq<Op>, key: seq<Byte>)
    requires Sound(engine) && Serves(engine) && |flags| == engine.count
    ensures ResultAfter(engine, Start(engine, flags), ops, key).Some? <==>
      && SomeAlive(Run(engine, Start(engine, flags), ops).flags)
      && SomeAlive(flags)
      && AliveAtLookups(engine, Start(engine, flags), ops)
  {
    BuiltShape(engine, flags);
    TableSurvives(engine, Start(engine, flags), ops);
    LookupExact(engine, Run(engine, Start(engine, flags), ops), key);
  }

  /** The table always equals the fill for the flags at construction or at some earlier moment of the run. */
  lemma {:induction false} TableIsSnapshot(engine: Engine, flags: seq<bool>, ops: seq<Op>) returns (k: nat)
    requires Sound(engine) && |flags| == engine.count
    ensures k <= |ops|
    ensures Run(engine, Start(engine, flags), ops).table
      == engine.build(Run(engine, Start(engine, flags), ops[..k]).flags)
    ensures Run(engine, Start(engine, flags), ops).built == Run(engine, Start(engine, flags), ops[..k]).flags
  {
    hide Sound;
    var s := Start(engine, flags);
    if ops == [] {
      k := 0;
    } else {
      var last := |ops| - 1;
      var s1 := Run(engine, s, ops[..last]);
      k := TableIsSnapshot(engine, flags, ops[..last]);
      assert ops[..last][..k] == ops[..k];
      if Run(engine, s, ops).built != s1.built {
        k := |ops|;
        assert ops[..k] == ops;
      }
    }
  }

  /** The slot of this key has an owner, and it is up. */
  ghost predicate SlotUp(engine: Engine, table: seq<nat>, flags: seq<bool>, key: seq<Byte>) {
    var i := engine.index(key);
    i < |table| && table[i] < |flags| && flags[table[i]]
  }

  /**
    A lookup leaves the table alone and answers with the slot's owner exactly when that owner is up;
    otherwise it rebuilds, and the slot passes to somebody else or the table goes.
   */
  lemma LookupKeepsExactly(engine: Engine, s: State, key: seq<Byte>)
    requires Sound(engine) && Consistent(engine, s) && s.table != []
    ensures engine.index(key) < |s.table| == engine.size && s.table[engine.index(key)] < engine.count
    ensures SlotUp(engine, s.table, s.flags, key) ==>
      LookupStep(engine, s, key) == (s, Some(s.table[engine.index(key)]))
    ensures !SlotUp(engine, s.table, s.flags, key) ==>
      && LookupStep(engine, s, key).0 == Rebuilt(engine, s)
      && LookupStep(engine, s, key).0.table != s.table
      && LookupStep(engine, s, key).1 != Some(s.table[engine.index(key)])
  {
    hide Sound;
    SoundIndex(engine, key);
    BuiltShape(engine, s.built);
    BuiltShape(engine, s.flags);
    var i, later := engine.index(key), engine.build(s.flags);
    if !SlotUp(engine, s.table, s.flags, key) && later != [] {
      assert s.flags[later[i]] && !s.flags[s.table[i]];
    }
  }

  /** At every lookup of the run the owner, in the table at the start, of the slot looked up is up. */
  ghost predicate OwnersUpAtLookups(engine: Engine, s: State, ops: seq<Op>)
    requires Sound(engine) && Consistent(engine, s)
  {
    forall k :: 0 <= k < |ops| && ops[k].Lookup? ==>
      SlotUp(engine, s.table, Run(engine, s, ops[..k]).flags, ops[k].key)
  }

  /** The table is the same before, during and after the run. */
  ghost predicate TableKept(engine: Engine, s: State, ops: seq<Op>)
    requires Sound(engine) && Consistent(engine, s)
  {
    forall k :: 0 <= k <= |ops| ==> Run(engine, s, ops[..k]).table == s.table
  }

  lemma KeptPrefix(engine: Engine, s: State, ops: seq<Op>, init: seq<Op>)
    requires Sound(engine) && Consistent(engine, s) && ops != [] && init == ops[..|ops| - 1]
    ensures TableKept(engine, s, ops) <==> TableKept(engine, s, init) && Run(engine, s, ops).table == s.table
  {
    hide Sound, Run, Consistent;
    assert ops[..|ops|] == ops;
    if TableKept(engine, s, ops) {
      forall k | 0 <= k <= |init|
        ensures Run(engine, s, init[..k]).table == s.table
      {
        assert init[..k] == ops[..k];
      }
    }
    if TableKept(engine, s, init) && Run(engine, s, ops).table == s.table {
      forall k | 0 <= k <= |ops|
        ensures Run(engine, s, ops[..k]).table == s.table
      {
        if k <= |init| { assert init[..k] == ops[..k]; }
      }
    }
  }

  lemma OwnersUpPrefix(engine: Engine, s: State, ops: seq<Op>, init: seq<Op>, last: Op)
    requires Sound(engine) && Consistent(engine, s) && ops == init + [last]
    ensures OwnersUpAtLookups(engine, s, ops) <==>
      && OwnersUpAtLookups(engine, s, init)
      && (last.Lookup? ==> SlotUp(engine, s.table, Run(engine, s, init).flags, last.key))
  {
    hide Sound, Run, SlotUp, Consistent;
    assert ops[..|init|] == init;
    if OwnersUpAtLookups(engine, s, ops) {
      forall k | 0 <= k < |init| && init[k].Lookup?
        ensures SlotUp(engine, s.table, Run(engine, s, init[..k]).flags, init[k].key)
      {
        assert init[..k] == ops[..k] && init[k] == ops[k];
      }
    } else {
      var k :| 0 <= k < |ops| && ops[k].Lookup? && !SlotUp(engine, s.table, Run(engine, s, ops[..k]).flags, ops[k].key);
      if k < |init| { assert init[..k] == ops[..k] && init[k] == ops[k]; }
    }
  }

  /**
    When the table lasts, exactly: it stays as it is through the whole run if and only if every lookup finds the owner
    of its slot up at that moment. Failures and recoveries that no lookup notices change nothing.
   */
  lemma {:induction false} TableKeptExactly(engine: Engine, s: State, ops: seq<Op>)
    requires Sound(engine) && Consistent(engine, s) && s.table != []
    ensures TableKept(engine, s, ops) <==> OwnersUpAtLookups(engine, s, ops)
    ensures OwnersUpAtLookups(engine, s, ops) ==>
      Run(engine, s, ops).table == s.table && Run(engine, s, ops).built == s.built
  {
    hide Sound, LookupStep, SlotUp, TableKept, OwnersUpAtLookups;
    if ops == [] {
      NothingHappened(engine, s);
    } else {
      var init, op := ops[..|ops| - 1], ops[|ops| - 1];
      assert ops == init + [op];
      KeptPrefix(engine, s, ops, init);
      OwnersUpPrefix(engine, s, ops, init, op);
      TableKeptExactly(engine, s, init);
      if TableKept(engine, s, init) && op.Lookup? {
        LookupKeepsExactly(engine, Run(engine, s, init), op.key);
      }
    }
  }

  lemma NothingHappened(engine: Engine, s: State)
    requires Sound(engine) && Consistent(engine, s)
    ensures TableKept(engine, s, []) && OwnersUpAtLookups(engine, s, [])
  {
    hide Sound;
    var none: seq<Op> := [];
    assert forall k :: 0 <= k <= 0 ==> none[..k] == [];
  }

  /** A backend that answers owns the slot of the key from then on. */
  lemma AnswerOwnsSlot(engine: Engine, s: State, key: seq<Byte>)
    requires Sound(engine) && Consistent(engine, s) && LookupStep(engine, s, key).1.Some?
    ensures var (s', r) := LookupStep(engine, s, key);
      engine.index(key) < |s'.table| && s'.table[engine.index(key)] == r.value
  {
  }

  /**
    Affinity: while every lookup finds the owner of its slot up, whatever else fails and recovers, a key is answered
    with the backend that owned its slot at the start exactly when that backend is up.
   */
  lemma Sticky(engine: Engine, s: State, ops: seq<Op>, key: seq<Byte>)
    requires Sound(engine) && Consistent(engine, s) && s.table != [] && OwnersUpAtLookups(engine, s, ops)
    ensures engine.index(key) < |s.table| && s.table[engine.index(key)] < engine.count
    ensures |Run(engine, s, ops).flags| == engine.count
    ensures var b := s.table[engine.index(key)];
      ResultAfter(engine, s, ops, key) == Some(b) <==> Run(engine, s, ops).flags[b]
  {
    hide Sound, OwnersUpAtLookups;
    TableKeptExactly(engine, s, ops);
    LookupKeepsExactly(engine, Run(engine, s, ops), key);
  }
}
