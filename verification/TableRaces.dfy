/**
  Three short runs with a rebuild at a bad moment: one that loses the table although something is always up, one that
  moves a key although its backend is always up, and one that publishes the table there was.
 */
module TableRaces {
  import opened Net
  import opened Backends
  import opened LookupTable
  import opened TableProtocol

  // ----- an outage that never was -----

  /** A lookup rebuilds while backend 0 comes back and backend 1 goes down, and reads each while it is down. */
  function RacedRebuild(key: seq<Byte>): seq<Action> {
    [Flip(1, true), Flip(0, false), Ask(0, key), Consult(0),
     Read(0), Flip(0, true), Flip(1, false), Read(0), Publish(0)]
  }

  lemma NextStep(engine: Engine, s0: System, actions: seq<Action>, k: nat)
    requires Sound(engine) && Sane(engine, s0) && k < |actions|
    ensures Execute(engine, s0, actions[..k + 1]) == Act(engine, Execute(engine, s0, actions[..k]), actions[k])
  {
    hide Sound, Sane, Act;
    assert actions[..k + 1][..k] == actions[..k];
  }

  lemma FlipAct(engine: Engine, s: System, b: nat, up: bool)
    requires Sound(engine) && Sane(engine, s) && b < |s.flags|
    ensures Act(engine, s, Flip(b, up)) == s.(flags := s.flags[b := up], past := s.past + [s.flags[b := up]])
  {
  }

  lemma ReadAct(engine: Engine, s: System, t: nat)
    requires Sound(engine) && Sane(engine, s) && t in s.tasks && s.tasks[t].Collecting? && |s.tasks[t].seen| < |s.flags|
    ensures Act(engine, s, Read(t))
      == SetTask(s, t, Collecting(s.tasks[t].index, s.tasks[t].seen + [s.flags[|s.tasks[t].seen|]]))
  {
  }

  /** A first look at a table with an owner in every slot, all of them down. */
  lemma StaleConsult(engine: Engine, s: System, t: nat, key: seq<Byte>)
    requires Sound(engine) && Sane(engine, s) && t !in s.tasks && s.table != []
    requires forall i :: 0 <= i < |s.table| ==> s.table[i] < |s.flags| && !s.flags[s.table[i]]
    ensures var s' := SetTask(s, t, Asked(key));
      && Act(engine, s, Ask(t, key)) == s' && Sane(engine, s')
      && Act(engine, s', Consult(t)) == SetTask(s', t, Collecting(engine.index(key), []))
  {
    AskSane(engine, s, t, key);
    BuiltShape(engine, s.built);
    SoundIndex(engine, key);
    hide Sound, AllSeen, TaskSane;
  }

  /** The table that a lone first backend gives. */
  lemma AllFirst(engine: Engine)
    requires Sound(engine) && Serves(engine) && engine.count == 2
    ensures var table := engine.build([true, false]); table != [] && forall i :: 0 <= i < |table| ==> table[i] == 0
  {
    var flags := [true, false];
    BuiltShape(engine, flags);
    assert flags[0];
  }

  /** The first two steps: backend 1 takes over from backend 0. */
  lemma RaceFlips(engine: Engine, s0: System, acts: seq<Action>) returns (s: System)
    requires Sound(engine) && Sane(engine, s0) && s0.flags == [true, false]
    requires |acts| >= 2 && acts[0] == Flip(1, true) && acts[1] == Flip(0, false)
    ensures s == Execute(engine, s0, acts[..2])
    ensures s.flags == [false, true] && s.past == s0.past + [[true, true]] + [[false, true]]
    ensures s.tasks == s0.tasks && s.table == s0.table
  {
    hide Sound, Sane, Execute, Act;
    assert acts[..0] == [];
    ExecuteNone(engine, s0);
    NextStep(engine, s0, acts, 0);
    NextStep(engine, s0, acts, 1);
    FlipAct(engine, s0, 1, true);
    var s1 := Execute(engine, s0, acts[..1]);
    assert s1.flags == [true, true];
    FlipAct(engine, s1, 0, false);
    s := Execute(engine, s0, acts[..2]);
  }

  /** The next two: a lookup finds the owner of its slot down. */
  lemma RaceAsks(engine: Engine, key: seq<Byte>, s0: System, acts: seq<Action>, s2: System) returns (s: System)
    requires Sound(engine) && Sane(engine, s0)
    requires |acts| >= 4 && acts[2] == Ask(0, key) && acts[3] == Consult(0) && s2 == Execute(engine, s0, acts[..2])
    requires s2.tasks == map[] && s2.table != []
    requires forall i :: 0 <= i < |s2.table| ==> s2.table[i] < |s2.flags| && !s2.flags[s2.table[i]]
    ensures s == Execute(engine, s0, acts[..4])
    ensures s.flags == s2.flags && s.past == s2.past
    ensures s.tasks == map[0 := Collecting(engine.index(key), [])]
  {
    hide Sound, Sane, Execute, Act;
    NextStep(engine, s0, acts, 2);
    NextStep(engine, s0, acts, 3);
    StaleConsult(engine, s2, 0, key);
    s := Execute(engine, s0, acts[..4]);
  }

  /** The steps of the rebuild: each flag is read while it is down, and the other one is up. */
  lemma RaceEnds(engine: Engine, i: nat, s0: System, acts: seq<Action>, s: System) returns (end: System)
    requires Sound(engine) && engine.count == 2 && Sane(engine, s0)
    requires |acts| == 9 && acts[4..] == [Read(0), Flip(0, true), Flip(1, false), Read(0), Publish(0)]
    requires s == Execute(engine, s0, acts[..4])
    requires s.flags == [false, true] && s.tasks == map[0 := Collecting(i, [])]
    ensures end == Execute(engine, s0, acts)
    ensures end.table == engine.build([false, false]) && end.tasks == map[0 := Published(i)]
    ensures end.past == s.past + [[true, true]] + [[true, false]]
  {
    hide Sound, Sane, Execute, Act;
    assert acts[4] == acts[4..][0] && acts[5] == acts[4..][1] && acts[6] == acts[4..][2];
    assert acts[7] == acts[4..][3] && acts[8] == acts[4..][4] && acts[..9] == acts;
    NextStep(engine, s0, acts, 4);
    NextStep(engine, s0, acts, 5);
    NextStep(engine, s0, acts, 6);
    NextStep(engine, s0, acts, 7);
    NextStep(engine, s0, acts, 8);
    ReadAct(engine, s, 0);
    var s5 := Execute(engine, s0, acts[..5]);
    assert s5.tasks[0] == Collecting(i, [false]);
    FlipAct(engine, s5, 0, true);
    var s6 := Execute(engine, s0, acts[..6]);
    assert s6.flags == [true, true];
    FlipAct(engine, s6, 1, false);
    var s7 := Execute(engine, s0, acts[..7]);
    assert s7.flags == [true, false];
    ReadAct(engine, s7, 0);
    var s8 := Execute(engine, s0, acts[..8]);
    assert [false] + [s7.flags[1]] == [false, false];
    assert s8.tasks[0] == Collecting(i, [false, false]);
    PublishActs(engine, s8, 0);
    end := Execute(engine, s0, acts);
  }

  lemma RaceMoments(past: seq<seq<bool>>, k: nat)
    requires past == [[true, false], [true, true], [false, true], [true, true], [true, false]] && k < |past|
    ensures SomeAlive(past[k])
  {
    if k == 2 { assert past[2] == [false, true] && past[2][1]; } else { assert past[k][0]; }
  }

  /** At every moment of this run something is up, and yet it leaves an empty table, for ever. */
  lemma OutageThatNeverWas(engine: Engine, key: seq<Byte>)
    requires Sound(engine) && Serves(engine) && engine.count == 2
    ensures Sane(engine, Begin(engine, [true, false]))
    ensures var end := Execute(engine, Begin(engine, [true, false]), RacedRebuild(key));
      end.table == [] && Hopeless(engine, end) && forall k :: 0 <= k < |end.past| ==> SomeAlive(end.past[k])
  {
    hide Sound, Serves, Execute, Sane, SomeAlive;
    BeginSane(engine, [true, false]);
    NothingBuilt(engine);
    AllFirst(engine);
    var s0, acts := Begin(engine, [true, false]), RacedRebuild(key);
    var s2 := RaceFlips(engine, s0, acts);
    var s4 := RaceAsks(engine, key, s0, acts, s2);
    var end := RaceEnds(engine, engine.index(key), s0, acts, s4);
    forall k: nat | k < |end.past|
      ensures SomeAlive(end.past[k])
    {
      RaceMoments(end.past, k);
    }
  }

  lemma NothingBuilt(engine: Engine)
    requires Sound(engine) && engine.count == 2
    ensures engine.build([false, false]) == []
  {
    BuiltShape(engine, [false, false]);
  }

  // ----- a rebuild that comes late -----

  /** In the table of three live backends x and y belong to 0 and 1; in that of the last two y belongs to 2. */
  ghost predicate Contended(engine: Engine, x: seq<Byte>, y: seq<Byte>) {
    var before, after := engine.build([true, true, true]), engine.build([false, true, true]);
    && engine.count == 3 && engine.index(x) < |before| && engine.index(y) < |before| == |after|
    && before[engine.index(x)] == 0 && before[engine.index(y)] == 1 && after[engine.index(y)] == 2
  }

  /** A first look under way: lookup 0 finds backend 0 down; lookup 1 is answered before that rebuild publishes. */
  function LateRebuild(x: seq<Byte>, y: seq<Byte>): seq<Action> {
    [Flip(0, false), Ask(0, x), Consult(0), Ask(1, y), Consult(1)]
    + [Read(0), Read(0), Read(0), Publish(0), Ask(2, y), Consult(2)]
  }

  /** A first look, by what the slot holds. */
  lemma ConsultAct(engine: Engine, s: System, t: nat, key: seq<Byte>)
    requires Sound(engine) && Sane(engine, s) && t in s.tasks && s.tasks[t] == Asked(key)
    requires engine.index(key) < |s.table| && s.table[engine.index(key)] < engine.count
    ensures |s.flags| == engine.count
    ensures var b := s.table[engine.index(key)];
      && Act(engine, s, Consult(t))
        == SetTask(s, t, if s.flags[b] then Answered(Some(b)) else Collecting(engine.index(key), []))
      && (FindsDown(engine, s, Consult(t)) <==> !s.flags[b])
  {
    SoundIndex(engine, key);
    SaneLengths(engine, s);
    GlanceIsAnswer(engine, s, engine.index(key));
    hide Sound, AllSeen, TaskSane;
  }

  lemma AskAct(engine: Engine, s: System, t: nat, key: seq<Byte>)
    requires Sound(engine) && Sane(engine, s) && t !in s.tasks
    ensures Act(engine, s, Ask(t, key)) == SetTask(s, t, Asked(key)) && !FindsDown(engine, s, Ask(t, key))
  {
  }

  /** The steps up to the answer of lookup 1. */
  lemma LateStart(engine: Engine, x: seq<Byte>, y: seq<Byte>, s0: System, acts: seq<Action>) returns (s: System)
    requires Sound(engine) && Contended(engine, x, y) && Sane(engine, s0)
    requires s0.flags == [true, true, true] && s0.table == engine.build(s0.flags) && s0.tasks == map[]
    requires acts == [Flip(0, false), Ask(0, x), Consult(0), Ask(1, y), Consult(1)]
    ensures s == Execute(engine, s0, acts)
    ensures s.flags == [false, true, true] && s.past == s0.past + [[false, true, true]] && s.table == s0.table
    ensures s.tasks == map[0 := Collecting(engine.index(x), []), 1 := Answered(Some(1))]
  {
    hide Sound, Sane, Execute, Act, FindsDown;
    assert acts[..0] == [] && acts[..5] == acts;
    ExecuteNone(engine, s0);
    NextStep(engine, s0, acts, 0);
    NextStep(engine, s0, acts, 1);
    NextStep(engine, s0, acts, 2);
    NextStep(engine, s0, acts, 3);
    NextStep(engine, s0, acts, 4);
    FlipAct(engine, s0, 0, false);
    var s1 := Execute(engine, s0, acts[..1]);
    assert s1.flags == [false, true, true];
    AskAct(engine, s1, 0, x);
    var s2 := Execute(engine, s0, acts[..2]);
    ConsultAct(engine, s2, 0, x);
    var s3 := Execute(engine, s0, acts[..3]);
    AskAct(engine, s3, 1, y);
    var s4 := Execute(engine, s0, acts[..4]);
    ConsultAct(engine, s4, 1, y);
    s := Execute(engine, s0, acts);
  }

  lemma LateReads(engine: Engine, i: nat, s0: System, acts: seq<Action>) returns (s: System)
    requires Sound(engine) && engine.count == 3 && Sane(engine, s0)
    requires s0.flags == [false, true, true]
    requires s0.tasks == map[0 := Collecting(i, []), 1 := Answered(Some(1))]
    requires |acts| >= 3 && acts[0] == acts[1] == acts[2] == Read(0)
    ensures s == Execute(engine, s0, acts[..3])
    ensures s == s0.(tasks := map[0 := Collecting(i, [false, true, true]), 1 := Answered(Some(1))])
  {
    hide Sound, Sane, Execute, Act;
    assert acts[..3] == Reads(0, 3);
    ReadsCollect(engine, s0, 0, 3);
    GatherNone(s0.flags, []);
    s := Execute(engine, s0, acts[..3]);
  }

  lemma {:induction false} NoneBegun(engine: Engine, s: System, actions: seq<Action>)
    requires Sound(engine) && Sane(engine, s)
    requires forall k :: 0 <= k < |actions| ==> !FindsDown(engine, Execute(engine, s, actions[..k]), actions[k])
    ensures Begun(engine, s, actions) == 0
  {
    hide Execute, Sane, Sound, FindsDown;
    if actions != [] {
      var init := actions[..|actions| - 1];
      forall k | 0 <= k < |init|
        ensures !FindsDown(engine, Execute(engine, s, init[..k]), init[k])
      {
        assert init[..k] == actions[..k] && init[k] == actions[k];
      }
      NoneBegun(engine, s, init);
    }
  }

  lemma OnlyConsultsFind(engine: Engine, s: System, a: Action)
    requires Sound(engine) && Sane(engine, s) && !a.Consult?
    ensures !FindsDown(engine, s, a)
  {
  }

  /** The rest: the rebuild publishes, and lookup 2 is answered from the new table. */
  lemma LateEnd(engine: Engine, x: seq<Byte>, y: seq<Byte>, s0: System, acts: seq<Action>) returns (s: System)
    requires Sound(engine) && Contended(engine, x, y) && Sane(engine, s0)
    requires s0.flags == [false, true, true]
    requires s0.tasks == map[0 := Collecting(engine.index(x), []), 1 := Answered(Some(1))]
    requires acts == [Read(0), Read(0), Read(0), Publish(0), Ask(2, y), Consult(2)]
    ensures s == Execute(engine, s0, acts) && Begun(engine, s0, acts) == 0
    ensures s.flags == s0.flags && s.past == s0.past && 2 in s.tasks && s.tasks[2] == Answered(Some(2))
  {
    hide Sound, Sane, Execute, Act, FindsDown, Begun;
    var s3 := LateReads(engine, engine.index(x), s0, acts);
    assert acts[..6] == acts;
    NextStep(engine, s0, acts, 3);
    NextStep(engine, s0, acts, 4);
    NextStep(engine, s0, acts, 5);
    PublishActs(engine, s3, 0);
    var s4 := Execute(engine, s0, acts[..4]);
    AskAct(engine, s4, 2, y);
    var s5 := Execute(engine, s0, acts[..5]);
    ConsultAct(engine, s5, 2, y);
    s := Execute(engine, s0, acts);
    forall k | 0 <= k < |acts|
      ensures !FindsDown(engine, Execute(engine, s0, acts[..k]), acts[k])
    {
      if k < 5 { OnlyConsultsFind(engine, Execute(engine, s0, acts[..k]), acts[k]); }
    }
    NoneBegun(engine, s0, acts);
  }

  /**
    A key moves although its backend stays up and, from its answer on, no first look finds an owner down: a rebuild
    that began earlier is published in between.
   */
  lemma KeyMovesLate(engine: Engine, x: seq<Byte>, y: seq<Byte>)
    returns (first: seq<Action>, rest: seq<Action>, mid: System, end: System)
    requires Sound(engine) && Contended(engine, x, y)
    ensures first + rest == LateRebuild(x, y) && |first| == 5 && first[3] == Ask(1, y) && rest[4] == Ask(2, y)
    ensures Sane(engine, Begin(engine, [true, true, true]))
    ensures mid == Execute(engine, Begin(engine, [true, true, true]), first) && end == Execute(engine, mid, rest)
    ensures 1 in mid.tasks && mid.tasks[1] == Answered(Some(1))
    ensures 2 in end.tasks && end.tasks[2] == Answered(Some(2))
    ensures Begun(engine, mid, rest) == 0 && forall k :: 0 <= k < |end.past| ==> |end.past[k]| == 3 && end.past[k][1]
  {
    hide Sound, Sane, Execute, FindsDown, Begun, Contended;
    ContendedCount(engine, x, y);
    BeginSane(engine, [true, true, true]);
    first := [Flip(0, false), Ask(0, x), Consult(0), Ask(1, y), Consult(1)];
    rest := [Read(0), Read(0), Read(0), Publish(0), Ask(2, y), Consult(2)];
    mid := LateStart(engine, x, y, Begin(engine, [true, true, true]), first);
    end := LateEnd(engine, x, y, mid, rest);
  }

  lemma ContendedCount(engine: Engine, x: seq<Byte>, y: seq<Byte>)
    requires Contended(engine, x, y)
    ensures engine.count == 3
  {
  }

  // ----- a rebuild that changes nothing -----

  /** The owner of the slot comes back before its flag is read. */
  function IdleRebuild(x: seq<Byte>): seq<Action> {
    [Flip(0, false), Ask(0, x), Consult(0), Flip(0, true), Read(0), Read(0), Read(0), Publish(0)]
  }

  lemma IdleStart(engine: Engine, x: seq<Byte>, s0: System, acts: seq<Action>) returns (mid: System, s: System)
    requires Sound(engine) && Sane(engine, s0) && engine.count == 3
    requires s0.flags == [true, true, true] && s0.tasks == map[]
    requires engine.index(x) < |s0.table| && s0.table[engine.index(x)] == 0
    requires |acts| >= 4 && acts[..4] == [Flip(0, false), Ask(0, x), Consult(0), Flip(0, true)]
    ensures mid == Execute(engine, s0, acts[..2]) && s == Execute(engine, s0, acts[..4])
    ensures FindsDown(engine, mid, Consult(0))
    ensures s.flags == s0.flags && s.tasks == map[0 := Collecting(engine.index(x), [])]
  {
    hide Sound, Sane, Execute, Act, FindsDown;
    assert acts[..0] == [] && acts[0] == acts[..4][0] && acts[1] == acts[..4][1];
    assert acts[2] == acts[..4][2] && acts[3] == acts[..4][3];
    ExecuteNone(engine, s0);
    NextStep(engine, s0, acts, 0);
    NextStep(engine, s0, acts, 1);
    NextStep(engine, s0, acts, 2);
    NextStep(engine, s0, acts, 3);
    FlipAct(engine, s0, 0, false);
    var s1 := Execute(engine, s0, acts[..1]);
    assert s1.flags == [false, true, true];
    AskAct(engine, s1, 0, x);
    mid := Execute(engine, s0, acts[..2]);
    ConsultAct(engine, mid, 0, x);
    var s3 := Execute(engine, s0, acts[..3]);
    FlipAct(engine, s3, 0, true);
    s := Execute(engine, s0, acts[..4]);
    assert s.flags == [true, true, true];
  }

  /** A rebuild begins and is published, and the table is the same as before. */
  lemma SameTablePublished(engine: Engine, x: seq<Byte>) returns (mid: System, end: System)
    requires Sound(engine) && engine.count == 3
    requires engine.index(x) < |engine.build([true, true, true])|
      && engine.build([true, true, true])[engine.index(x)] == 0
    ensures Sane(engine, Begin(engine, [true, true, true]))
    ensures mid == Execute(engine, Begin(engine, [true, true, true]), IdleRebuild(x)[..2])
    ensures end == Execute(engine, Begin(engine, [true, true, true]), IdleRebuild(x))
    ensures FindsDown(engine, mid, IdleRebuild(x)[2])
    ensures 0 in end.tasks && end.tasks[0] == Published(engine.index(x))
    ensures end.table == Begin(engine, [true, true, true]).table
  {
    hide Sound, Sane, Execute, Act, FindsDown;
    var s0, acts := Begin(engine, [true, true, true]), IdleRebuild(x);
    BeginSane(engine, [true, true, true]);
    var s4: System;
    mid, s4 := IdleStart(engine, x, s0, acts);
    assert acts[4..] == Reads(0, 3) + [Publish(0)] && acts == acts[..4] + acts[4..];
    ExecuteSplit(engine, s0, acts[..4], acts[4..]);
    ReadsCollect(engine, s4, 0, 3);
    GatherNone(s4.flags, []);
    ExecuteLast(engine, s4, Reads(0, 3), Publish(0));
    PublishActs(engine, Execute(engine, s4, Reads(0, 3)), 0);
    end := Execute(engine, s0, acts);
  }
}
