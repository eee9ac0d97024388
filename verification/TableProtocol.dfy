/**
  Concurrent lookups: between a lookup's two looks at the table other lookups, rebuilds and health flips may happen,
  and a rebuild reads the flags one after the other before it publishes its table. Every action is atomic.
 */
module TableProtocol {
  import opened Net
  import opened Backends
  import opened MaglevFill
  import opened LookupTable

  datatype Task =
    | Asked(key: seq<Byte>)
    | Collecting(index: nat, seen: seq<bool>)
    | Published(index: nat)
    | Answered(result: Option<nat>)

  /** `past` is history: every vector of flags there has been, the current one last. */
  datatype System = System(
    flags: seq<bool>, table: seq<nat>, built: seq<bool>, tasks: map<nat, Task>, past: seq<seq<bool>>)

  datatype Action =
    | Flip(b: nat, up: bool)
    | Ask(t: nat, key: seq<Byte>)
    | Consult(t: nat)
    | Read(t: nat)
    | Publish(t: nat)
    | Reconsult(t: nat)

  /** Flag b had value x at some moment. */
  ghost predicate WasSeen(past: seq<seq<bool>>, b: nat, x: bool) {
    exists j :: 0 <= j < |past| && b < |past[j]| && past[j][b] == x
  }

  /** Each flag of v was read at its moment, and the moments are in order. */
  ghost predicate ReadAt(past: seq<seq<bool>>, v: seq<bool>, moments: seq<nat>) {
    && |moments| == |v|
    && (forall b :: 0 <= b < |v| ==>
          moments[b] < |past| && b < |past[moments[b]]| && past[moments[b]][b] == v[b])
    && forall b, c :: 0 <= b < c < |v| ==> moments[b] <= moments[c]
  }

  /** The flags v were read one after the other. */
  ghost predicate AllSeen(past: seq<seq<bool>>, v: seq<bool>) {
    exists moments :: ReadAt(past, v, moments)
  }

  lemma SeenSingly(past: seq<seq<bool>>, v: seq<bool>, b: nat)
    requires AllSeen(past, v) && b < |v|
    ensures WasSeen(past, b, v[b])
  {
    var moments :| ReadAt(past, v, moments);
    assert past[moments[b]][b] == v[b];
  }

  ghost predicate TaskSane(engine: Engine, past: seq<seq<bool>>, x: Task) {
    match x
    case Collecting(i, seen) => i < engine.size && |seen| <= engine.count && AllSeen(past, seen)
    case Published(i) => i < engine.size
    case _ => true
  }

  /** The table is the fill for flags that were read one after the other, never a mixture of two fills. */
  ghost predicate Sane(engine: Engine, s: System) {
    && |s.flags| == |s.built| == engine.count
    && s.table == engine.build(s.built)
    && s.past != [] && s.past[|s.past| - 1] == s.flags && AllSeen(s.past, s.built)
    && forall t :: t in s.tasks ==> TaskSane(engine, s.past, s.tasks[t])
  }

  lemma SaneLengths(engine: Engine, s: System)
    requires Sane(engine, s)
    ensures |s.flags| == |s.built| == engine.count
  {
  }

  function Begin(engine: Engine, flags: seq<bool>): System
    requires |flags| == engine.count
  {
    System(flags, engine.build(flags), flags, map[], [flags])
  }

  /** One look at the table under its lock: no slot, no backend, a backend that is down, or one that is up. */
  datatype Glance = Nothing | Down | Up(b: nat)

  function Look(engine: Engine, s: System, i: nat): (g: Glance)
    requires Sound(engine) && Sane(engine, s) && i < engine.size
    ensures g == Nothing <==> s.table == []
    ensures g.Up? ==> g.b < |s.flags| && s.flags[g.b] && s.table != [] && g.b == s.table[i]
  {
    BuiltShape(engine, s.built);
    if s.table == [] || s.table[i] == EMPTY || s.table[i] >= engine.count then Nothing
    else if s.flags[s.table[i]] then Up(s.table[i]) else Down
  }

  function SetTask(s: System, t: nat, x: Task): System {
    s.(tasks := s.tasks[t := x])
  }

  /** What the first look leads to: an answer, or the start of a rebuild. */
  function AfterConsult(g: Glance, i: nat): Task {
    match g
    case Nothing => Answered(None)
    case Up(b) => Answered(Some(b))
    case Down => Collecting(i, [])
  }

  function AfterReconsult(g: Glance): Task {
    Answered(if g.Up? then Some(g.b) else None)
  }

  function PublishStep(engine: Engine, s: System, t: nat, i: nat, seen: seq<bool>): System
    requires |seen| == engine.count
  {
    SetTask(s, t, Published(i)).(table := engine.build(seen), built := seen)
  }

  function Act(engine: Engine, s: System, a: Action): System
    requires Sound(engine) && Sane(engine, s)
  {
    match a
    case Flip(b, up) =>
      if b < |s.flags| then s.(flags := s.flags[b := up], past := s.past + [s.flags[b := up]]) else s
    case Ask(t, key) => if t in s.tasks then s else SetTask(s, t, Asked(key))
    case Consult(t) =>
      if t in s.tasks && s.tasks[t].Asked?
      then SetTask(s, t,
           AfterConsult(Look(engine, s, engine.index(s.tasks[t].key)), engine.index(s.tasks[t].key))) else s
    case Read(t) =>
      if t in s.tasks && s.tasks[t].Collecting? && |s.tasks[t].seen| < |s.flags|
      then SetTask(s, t, Collecting(s.tasks[t].index, s.tasks[t].seen + [s.flags[|s.tasks[t].seen|]])) else s
    case Publish(t) =>
      if t in s.tasks && s.tasks[t].Collecting? && |s.tasks[t].seen| == |s.flags|
      then PublishStep(engine, s, t, s.tasks[t].index, s.tasks[t].seen) else s
    case Reconsult(t) =>
      if t in s.tasks && s.tasks[t].Published?
      then assert TaskSane(engine, s.past, s.tasks[t]);
           SetTask(s, t, AfterReconsult(Look(engine, s, s.tasks[t].index))) else s
  }

  lemma SeenGrows(past: seq<seq<bool>>, v: seq<bool>, more: seq<bool>)
    requires AllSeen(past, v)
    ensures AllSeen(past + [more], v)
  {
    var moments :| ReadAt(past, v, moments);
    assert ReadAt(past + [more], v, moments);
  }

  lemma NowSeen(past: seq<seq<bool>>, now: seq<bool>)
    ensures AllSeen(past + [now], now)
  {
    assert ReadAt(past + [now], now, seq(|now|, _ => |past|));
  }

  /** One more flag, read now. */
  lemma SeenNext(past: seq<seq<bool>>, v: seq<bool>)
    requires AllSeen(past, v) && past != [] && |v| < |past[|past| - 1]|
    ensures AllSeen(past, v + [past[|past| - 1][|v|]])
  {
    var moments :| ReadAt(past, v, moments);
    var last: nat := |past| - 1;
    var longer, until := v + [past[last][|v|]], moments + [last];
    forall b | 0 <= b < |longer|
      ensures until[b] < |past| && b < |past[until[b]]| && past[until[b]][b] == longer[b]
    {
      if b < |v| { assert until[b] == moments[b] && longer[b] == v[b]; }
    }
    assert ReadAt(past, longer, until);
  }

  lemma FlipSane(engine: Engine, s: System, b: nat, up: bool)
    requires Sound(engine) && Sane(engine, s) && b < |s.flags|
    ensures Sane(engine, Act(engine, s, Flip(b, up)))
  {
    var s' := Act(engine, s, Flip(b, up));
    hide Sound, AllSeen;
    SeenGrows(s.past, s.built, s'.flags);
    NowSeen(s.past, s'.flags);
    forall t | t in s'.tasks
      ensures TaskSane(engine, s'.past, s'.tasks[t])
    {
      assert TaskSane(engine, s.past, s.tasks[t]);
      if s.tasks[t].Collecting? { SeenGrows(s.past, s.tasks[t].seen, s'.flags); }
    }
  }

  lemma SetTaskSane(engine: Engine, s: System, t: nat, x: Task)
    requires Sound(engine) && Sane(engine, s) && TaskSane(engine, s.past, x)
    ensures Sane(engine, SetTask(s, t, x))
  {
    hide Sound, AllSeen, TaskSane;
  }

  lemma ReadSane(engine: Engine, s: System, t: nat)
    requires Sound(engine) && Sane(engine, s) && t in s.tasks && s.tasks[t].Collecting? && |s.tasks[t].seen| < |s.flags|
    ensures Sane(engine, SetTask(s, t, Collecting(s.tasks[t].index, s.tasks[t].seen + [s.flags[|s.tasks[t].seen|]])))
  {
    hide Sound, AllSeen;
    var seen := s.tasks[t].seen;
    assert TaskSane(engine, s.past, s.tasks[t]);
    SeenNext(s.past, seen);
    SetTaskSane(engine, s, t, Collecting(s.tasks[t].index, seen + [s.flags[|seen|]]));
  }

  lemma PublishSane(engine: Engine, s: System, t: nat)
    requires Sound(engine) && Sane(engine, s) && t in s.tasks && s.tasks[t].Collecting?
      && |s.tasks[t].seen| == |s.flags|
    ensures Sane(engine, PublishStep(engine, s, t, s.tasks[t].index, s.tasks[t].seen))
  {
    hide Sound, AllSeen;
    assert TaskSane(engine, s.past, s.tasks[t]);
    SetTaskSane(engine, s, t, Published(s.tasks[t].index));
  }

  lemma NothingRead(past: seq<seq<bool>>)
    ensures AllSeen(past, [])
  {
    assert ReadAt(past, [], []);
  }

  lemma ConsultSane(engine: Engine, s: System, t: nat, i: nat)
    requires Sound(engine) && Sane(engine, s) && i < engine.size
    ensures Sane(engine, SetTask(s, t, AfterConsult(Look(engine, s, i), i)))
  {
    hide Look, Sound, AllSeen;
    NothingRead(s.past);
    SetTaskSane(engine, s, t, AfterConsult(Look(engine, s, i), i));
  }

  lemma ReconsultSane(engine: Engine, s: System, t: nat)
    requires Sound(engine) && Sane(engine, s) && t in s.tasks && s.tasks[t].Published?
    ensures s.tasks[t].index < engine.size
    ensures Sane(engine, SetTask(s, t, AfterReconsult(Look(engine, s, s.tasks[t].index))))
  {
    assert TaskSane(engine, s.past, s.tasks[t]);
    hide Look, Sound;
    SetTaskSane(engine, s, t, AfterReconsult(Look(engine, s, s.tasks[t].index)));
  }

  lemma AskSane(engine: Engine, s: System, t: nat, key: seq<Byte>)
    requires Sound(engine) && Sane(engine, s)
    ensures Sane(engine, SetTask(s, t, Asked(key)))
  {
    SetTaskSane(engine, s, t, Asked(key));
  }

  lemma SaneKept(engine: Engine, s: System, a: Action)
    requires Sound(engine) && Sane(engine, s)
    ensures Sane(engine, Act(engine, s, a))
  {
    hide Sane, Sound, AllSeen, Look, TaskSane, SetTask, PublishStep, AfterConsult, AfterReconsult;
    match a {
      case Flip(b, up) => if b < |s.flags| { FlipSane(engine, s, b, up); }
      case Ask(t, key) => AskSane(engine, s, t, key);
      case Consult(t) =>
        if t in s.tasks && s.tasks[t].Asked? {
          SoundIndex(engine, s.tasks[t].key);
          ConsultSane(engine, s, t, engine.index(s.tasks[t].key));
        }
      case Read(t) =>
        if t in s.tasks && s.tasks[t].Collecting? && |s.tasks[t].seen| < |s.flags| { ReadSane(engine, s, t); }
      case Publish(t) =>
        if t in s.tasks && s.tasks[t].Collecting? && |s.tasks[t].seen| == |s.flags| { PublishSane(engine, s, t); }
      case Reconsult(t) => if t in s.tasks && s.tasks[t].Published? { ReconsultSane(engine, s, t); }
    }
  }

  function Execute(engine: Engine, s: System, actions: seq<Action>): (r: System)
    requires Sound(engine) && Sane(engine, s)
    ensures Sane(engine, r)
  {
    if actions == [] then s
    else
      var p := Execute(engine, s, actions[..|actions| - 1]);
      SaneKept(engine, p, actions[|actions| - 1]);
      Act(engine, p, actions[|actions| - 1])
  }

  lemma BeginSane(engine: Engine, flags: seq<bool>)
    requires Sound(engine) && |flags| == engine.count
    ensures Sane(engine, Begin(engine, flags))
  {
    NowSeen([], flags);
    assert [] + [flags] == [flags];
  }

  /**
    In every interleaving the table is empty or a complete fill over backends each of which was up at some moment,
    so every index a lookup holds is a valid one, and a table with no owner comes only from flags all read as down.
   */
  lemma TableAlwaysWhole(engine: Engine, flags: seq<bool>, actions: seq<Action>, i: nat)
    requires Sound(engine) && |flags| == engine.count && i < engine.size
    ensures Sane(engine, Begin(engine, flags))
    ensures var s := Execute(engine, Begin(engine, flags), actions);
      && (s.table != [] ==> |s.table| == engine.size && s.table[i] < engine.count && WasSeen(s.past, s.table[i], true))
      && (s.table == [] && Serves(engine) ==> forall b :: 0 <= b < engine.count ==> WasSeen(s.past, b, false))
  {
    NowSeen([], flags);
    assert [] + [flags] == [flags];
    var s := Execute(engine, Begin(engine, flags), actions);
    BuiltShape(engine, s.built);
    if s.table == [] && Serves(engine) {
      forall b | 0 <= b < engine.count
        ensures WasSeen(s.past, b, false)
      {
        SeenSingly(s.past, s.built, b);
        assert !SomeAlive(s.built);
      }
    } else if s.table != [] {
      SeenSingly(s.past, s.built, s.table[i]);
    }
  }

  /**
    In every interleaving the table is the fill for flags that were read one after the other, each at a moment of the
    run; they need never have held together.
   */
  lemma TableIsReadInOrder(engine: Engine, flags: seq<bool>, actions: seq<Action>) returns (moments: seq<nat>)
    requires Sound(engine) && |flags| == engine.count
    ensures Sane(engine, Begin(engine, flags))
    ensures var s := Execute(engine, Begin(engine, flags), actions);
      s.table == engine.build(s.built) && ReadAt(s.past, s.built, moments)
  {
    BeginSane(engine, flags);
    var s := Execute(engine, Begin(engine, flags), actions);
    moments :| ReadAt(s.past, s.built, moments);
  }

  lemma AnswerIsUp(engine: Engine, s: System, a: Action, t: nat)
    requires Sound(engine) && Sane(engine, s)
    requires t in Act(engine, s, a).tasks && Act(engine, s, a).tasks[t].Answered?
    requires t !in s.tasks || !s.tasks[t].Answered?
    ensures var r := Act(engine, s, a).tasks[t].result; r.Some? ==> r.value < |s.flags| && s.flags[r.value]
  {
    match a {
      case Consult(u) =>
      case Reconsult(u) => if u in s.tasks { assert TaskSane(engine, s.past, s.tasks[u]); }
      case _ =>
    }
  }

  lemma AnswersStay(engine: Engine, s: System, a: Action, t: nat)
    requires Sound(engine) && Sane(engine, s) && t in s.tasks && s.tasks[t].Answered?
    ensures t in Act(engine, s, a).tasks && Act(engine, s, a).tasks[t] == s.tasks[t]
  {
    hide Look;
  }

  /** Action a makes lookup t answer x, a backend that is up. */
  ghost predicate AnswersUp(engine: Engine, s: System, a: Action, t: nat, x: Task)
    requires Sound(engine) && Sane(engine, s)
  {
    && (t !in s.tasks || !s.tasks[t].Answered?)
    && t in Act(engine, s, a).tasks && Act(engine, s, a).tasks[t] == x
    && x.Answered? && x.result.Some? && x.result.value < |s.flags| && s.flags[x.result.value]
  }

  /** In every run, each lookup answered with a backend that was up at the very step at which it answered. */
  lemma {:induction false} AnswersAreUp(engine: Engine, s0: System, actions: seq<Action>, t: nat) returns (k: nat)
    requires Sound(engine) && Sane(engine, s0) && s0.tasks == map[]
    requires var end := Execute(engine, s0, actions);
      t in end.tasks && end.tasks[t].Answered? && end.tasks[t].result.Some?
    ensures k < |actions|
    ensures AnswersUp(engine, Execute(engine, s0, actions[..k]), actions[k], t, Execute(engine, s0, actions).tasks[t])
  {
    hide Sound, Sane, Act;
    var last := |actions| - 1;
    var s := Execute(engine, s0, actions[..last]);
    if t in s.tasks && s.tasks[t].Answered? {
      AnswersStay(engine, s, actions[last], t);
      k := AnswersAreUp(engine, s0, actions[..last], t);
      assert actions[..last][..k] == actions[..k];
    } else {
      k := last;
      AnswerIsUp(engine, s, actions[last], t);
    }
  }

  /** Task t reads the remaining flags with nothing in between. */
  function Reads(t: nat, n: nat): seq<Action> {
    seq(n, _ => Read(t))
  }

  /** What has been read after n more flags. */
  function Gathered(flags: seq<bool>, seen: seq<bool>, n: nat): (r: seq<bool>)
    requires |seen| + n <= |flags|
    ensures |r| == |seen| + n
  {
    seen + flags[|seen|..|seen| + n]
  }

  lemma GatherOne(flags: seq<bool>, seen: seq<bool>, n: nat)
    requires |seen| + n < |flags|
    ensures Gathered(flags, seen, n + 1) == Gathered(flags, seen, n) + [flags[|seen| + n]]
  {
    var lo, hi := |seen|, |seen| + n;
    assert flags[lo..hi + 1] == flags[lo..hi] + [flags[hi]];
  }

  lemma {:induction false} ReadsCollect(engine: Engine, s: System, t: nat, n: nat)
    requires Sound(engine) && Sane(engine, s) && t in s.tasks && s.tasks[t].Collecting?
    requires |s.tasks[t].seen| + n <= |s.flags|
    ensures Execute(engine, s, Reads(t, n))
      == SetTask(s, t, Collecting(s.tasks[t].index, Gathered(s.flags, s.tasks[t].seen, n)))
  {
    hide Sane, Sound, Gathered;
    var seen := s.tasks[t].seen;
    if n == 0 {
      GatherNone(s.flags, seen);
      assert s.tasks == s.tasks[t := Collecting(s.tasks[t].index, seen)];
    } else {
      ReadsCollect(engine, s, t, n - 1);
      assert Reads(t, n)[..n - 1] == Reads(t, n - 1);
      GatherOne(s.flags, seen, n - 1);
    }
  }

  lemma GatherNone(flags: seq<bool>, seen: seq<bool>)
    requires |seen| <= |flags|
    ensures Gathered(flags, seen, 0) == seen
    ensures seen == [] ==> Gathered(flags, seen, |flags|) == flags
  {
  }

  lemma ExecuteLast(engine: Engine, s: System, actions: seq<Action>, a: Action)
    requires Sound(engine) && Sane(engine, s)
    ensures Execute(engine, s, actions + [a]) == Act(engine, Execute(engine, s, actions), a)
  {
    assert (actions + [a])[..|actions|] == actions;
  }

  /** The rest of a lookup that has to rebuild, with nothing in between. */
  function Refresh(engine: Engine, s: System, t: nat): System
    requires Sound(engine) && Sane(engine, s)
  {
    Execute(engine, s, Reads(t, |s.flags|) + [Publish(t)] + [Reconsult(t)])
  }

  lemma RefreshExact(engine: Engine, s: System, t: nat, i: nat) returns (s2: System)
    requires Sound(engine) && Sane(engine, s) && t in s.tasks && s.tasks[t] == Collecting(i, []) && i < engine.size
    ensures |s.flags| == engine.count && s2 == PublishStep(engine, s, t, i, s.flags)
    ensures Sane(engine, s2)
    ensures Refresh(engine, s, t) == SetTask(s2, t, AfterReconsult(Look(engine, s2, i)))
  {
    hide Sane, Sound, Look, AfterReconsult, AfterConsult, PublishStep, SetTask, Act, Execute, AllSeen,
      TaskSane, Reads, Gathered;
    SaneLengths(engine, s);
    s2 := PublishStep(engine, s, t, i, s.flags);
    var n := |s.flags|;
    ReadsCollect(engine, s, t, n);
    GatherNone(s.flags, []);
    PublishAct(engine, s, t, i);
    ReconsultAct(engine, s2, t, i);
    ExecuteLast(engine, s, Reads(t, n), Publish(t));
    ExecuteLast(engine, s, Reads(t, n) + [Publish(t)], Reconsult(t));
  }

  lemma PublishIdempotent(engine: Engine, s: System, t: nat, i: nat, x: Task)
    requires |s.flags| == engine.count
    ensures PublishStep(engine, SetTask(s, t, x), t, i, s.flags) == PublishStep(engine, s, t, i, s.flags)
    ensures t in PublishStep(engine, s, t, i, s.flags).tasks
      && PublishStep(engine, s, t, i, s.flags).tasks[t] == Published(i)
  {
    hide Sound;
    assert s.tasks[t := x][t := Published(i)] == s.tasks[t := Published(i)];
  }

  lemma PublishActs(engine: Engine, s: System, t: nat)
    requires Sound(engine) && Sane(engine, s) && t in s.tasks && s.tasks[t].Collecting?
      && |s.tasks[t].seen| == |s.flags|
    ensures |s.flags| == engine.count
    ensures Act(engine, s, Publish(t)) == PublishStep(engine, s, t, s.tasks[t].index, s.tasks[t].seen)
  {
    hide AllSeen, Sound, TaskSane, Look, AfterConsult, AfterReconsult, PublishStep, SetTask;
  }

  lemma PublishAct(engine: Engine, s: System, t: nat, i: nat)
    requires Sound(engine) && Sane(engine, s) && Sane(engine, SetTask(s, t, Collecting(i, s.flags)))
    ensures |s.flags| == engine.count
    ensures Act(engine, SetTask(s, t, Collecting(i, s.flags)), Publish(t)) == PublishStep(engine, s, t, i, s.flags)
    ensures Sane(engine, PublishStep(engine, s, t, i, s.flags))
    ensures t in PublishStep(engine, s, t, i, s.flags).tasks
      && PublishStep(engine, s, t, i, s.flags).tasks[t] == Published(i)
  {
    hide Sane, AllSeen, Sound, TaskSane, Look, Act, PublishStep;
    SaneLengths(engine, s);
    PublishActs(engine, SetTask(s, t, Collecting(i, s.flags)), t);
    SaneKept(engine, SetTask(s, t, Collecting(i, s.flags)), Publish(t));
    PublishIdempotent(engine, s, t, i, Collecting(i, s.flags));
  }

  lemma ReconsultAct(engine: Engine, s: System, t: nat, i: nat)
    requires Sound(engine) && Sane(engine, s) && i < engine.size && t in s.tasks && s.tasks[t] == Published(i)
    ensures Act(engine, s, Reconsult(t)) == SetTask(s, t, AfterReconsult(Look(engine, s, i)))
  {
    assert TaskSane(engine, s.past, s.tasks[t]);
    hide Sane, Look, AllSeen, Sound, TaskSane, AfterConsult, AfterReconsult, PublishStep;
  }

  /** A lookup whose steps run without interference: look, and if the slot's backend is down, rebuild and look again. */
  function Solo(engine: Engine, s: System, t: nat): System
    requires Sound(engine) && Sane(engine, s) && t in s.tasks && s.tasks[t].Asked?
  {
    SaneKept(engine, s, Consult(t));
    var s1 := Act(engine, s, Consult(t));
    if t in s1.tasks && s1.tasks[t].Collecting? then Refresh(engine, s1, t) else s1
  }

  /** A glance at the table, in terms of the atomic lookup. */
  lemma GlanceIsAnswer(engine: Engine, s: System, i: nat)
    requires Sound(engine) && Sane(engine, s) && i < engine.size
    ensures s.table != [] ==> i < |s.table| && s.table[i] < engine.count && engine.count < EMPTY
    ensures AfterReconsult(Look(engine, s, i))
      == Answered(if s.table == [] then None else Answer(State(s.flags, s.table, s.built), i))
    ensures Look(engine, s, i).Down? <==> s.table != [] && Answer(State(s.flags, s.table, s.built), i).None?
  {
    BuiltShape(engine, s.built);
  }

  /** Undisturbed, the protocol is the atomic lookup: same answer, same table. */
  lemma SoloIsLookup(engine: Engine, s: System, t: nat, s0: State, end: System)
    requires Sound(engine) && Sane(engine, s) && t in s.tasks && s.tasks[t].Asked?
    requires s0 == State(s.flags, s.table, s.built) && end == Solo(engine, s, t)
    ensures t in end.tasks && end.tasks[t] == Answered(LookupStep(engine, s0, s.tasks[t].key).1)
    ensures State(end.flags, end.table, end.built) == LookupStep(engine, s0, s.tasks[t].key).0
  {
    hide Look, Sound, Refresh, AllSeen, TaskSane;
    var i := engine.index(s.tasks[t].key);
    SoundIndex(engine, s.tasks[t].key);
    GlanceIsAnswer(engine, s, i);
    if Look(engine, s, i).Down? {
      ConsultSane(engine, s, t, i);
      var s1 := SetTask(s, t, Collecting(i, []));
      SoloRebuilds(engine, s, t, i);
      var s2 := RefreshExact(engine, s1, t, i);
      GlanceIsAnswer(engine, s2, i);
      assert State(s2.flags, s2.table, s2.built) == Rebuilt(engine, s0);
    }
  }

  lemma SoloRebuilds(engine: Engine, s: System, t: nat, i: nat)
    requires Sound(engine) && Sane(engine, s) && t in s.tasks && s.tasks[t].Asked? && i == engine.index(s.tasks[t].key)
    requires Look(engine, s, i).Down?
    ensures Sane(engine, SetTask(s, t, Collecting(i, [])))
    ensures Solo(engine, s, t) == Refresh(engine, SetTask(s, t, Collecting(i, [])), t)
  {
    hide Refresh, Sound, AllSeen, TaskSane, Sane, Look;
    SoundIndex(engine, s.tasks[t].key);
    ConsultSane(engine, s, t, i);
  }

  // ----- rebuilds -----

  /** The lookups that are rebuilding the table. */
  ghost function Rebuilding(s: System): set<nat> {
    set t | t in s.tasks && s.tasks[t].Collecting?
  }

  /** Action a is a first look that finds the owner of its slot down, and so begins a rebuild. */
  ghost predicate FindsDown(engine: Engine, s: System, a: Action)
    requires Sound(engine) && Sane(engine, s)
  {
    && a.Consult? && a.t in s.tasks && s.tasks[a.t].Asked?
    && Look(engine, s, engine.index(s.tasks[a.t].key)).Down?
  }

  /** Action a completes a rebuild. */
  ghost predicate Publishes(engine: Engine, s: System, a: Action) {
    a.Publish? && a.t in s.tasks && s.tasks[a.t].Collecting? && |s.tasks[a.t].seen| == engine.count
  }

  /** How many rebuilds begin in a run, and how many are completed. */
  ghost function Begun(engine: Engine, s: System, actions: seq<Action>): nat
    requires Sound(engine) && Sane(engine, s)
  {
    if actions == [] then 0
    else
      var init := actions[..|actions| - 1];
      Begun(engine, s, init)
      + if FindsDown(engine, Execute(engine, s, init), actions[|actions| - 1]) then 1 else 0
  }

  ghost function Completed(engine: Engine, s: System, actions: seq<Action>): nat
    requires Sound(engine) && Sane(engine, s)
  {
    if actions == [] then 0
    else
      var init := actions[..|actions| - 1];
      Completed(engine, s, init)
      + if Publishes(engine, Execute(engine, s, init), actions[|actions| - 1]) then 1 else 0
  }

  lemma SetTaskRebuilding(s: System, t: nat, x: Task)
    ensures Rebuilding(SetTask(s, t, x)) == if x.Collecting? then Rebuilding(s) + {t} else Rebuilding(s) - {t}
  {
  }

  lemma RebuildStep(engine: Engine, s: System, a: Action)
    requires Sound(engine) && Sane(engine, s)
    ensures |Rebuilding(Act(engine, s, a))| + (if Publishes(engine, s, a) then 1 else 0)
      == |Rebuilding(s)| + if FindsDown(engine, s, a) then 1 else 0
  {
    hide Act, Look, AllSeen, Sound, TaskSane, Sane, Rebuilding, FindsDown, Publishes;
    match a {
      case Flip(b, up) => SteadyRebuilding(engine, s, a);
      case Ask(t, key) => SteadyRebuilding(engine, s, a);
      case Consult(t) => ConsultRebuilding(engine, s, t);
      case Read(t) => SteadyRebuilding(engine, s, a);
      case Publish(t) => PublishRebuilding(engine, s, t);
      case Reconsult(t) => SteadyRebuilding(engine, s, a);
    }
  }

  lemma SteadyRebuilding(engine: Engine, s: System, a: Action)
    requires Sound(engine) && Sane(engine, s) && !a.Consult? && !a.Publish?
    ensures Rebuilding(Act(engine, s, a)) == Rebuilding(s) && !FindsDown(engine, s, a) && !Publishes(engine, s, a)
  {
    if a.Reconsult? && a.t in s.tasks && s.tasks[a.t].Published? { ReconsultRebuilding(engine, s, a.t); }
    hide Look, AllSeen, Sound, TaskSane, Sane;
  }

  lemma ConsultRebuilding(engine: Engine, s: System, t: nat)
    requires Sound(engine) && Sane(engine, s)
    ensures |Rebuilding(Act(engine, s, Consult(t)))|
      == |Rebuilding(s)| + if FindsDown(engine, s, Consult(t)) then 1 else 0
    ensures !Publishes(engine, s, Consult(t))
  {
    hide Look, AllSeen, Sound, TaskSane, Sane;
    if t in s.tasks && s.tasks[t].Asked? {
      SoundIndex(engine, s.tasks[t].key);
      var i := engine.index(s.tasks[t].key);
      SetTaskRebuilding(s, t, AfterConsult(Look(engine, s, i), i));
    }
  }

  lemma PublishRebuilding(engine: Engine, s: System, t: nat)
    requires Sound(engine) && Sane(engine, s)
    ensures |Rebuilding(Act(engine, s, Publish(t)))| + (if Publishes(engine, s, Publish(t)) then 1 else 0)
      == |Rebuilding(s)|
    ensures !FindsDown(engine, s, Publish(t))
  {
    SaneLengths(engine, s);
    hide Look, AllSeen, Sound, TaskSane, Sane;
    if Publishes(engine, s, Publish(t)) {
      SetTaskRebuilding(s, t, Published(s.tasks[t].index));
      assert Rebuilding(Act(engine, s, Publish(t))) == Rebuilding(SetTask(s, t, Published(s.tasks[t].index)));
    }
  }

  lemma ReconsultRebuilding(engine: Engine, s: System, t: nat)
    requires Sound(engine) && Sane(engine, s) && t in s.tasks && s.tasks[t].Published?
    ensures Rebuilding(Act(engine, s, Reconsult(t))) == Rebuilding(s)
  {
    assert TaskSane(engine, s.past, s.tasks[t]);
    hide Look, AllSeen, Sound;
    SetTaskRebuilding(s, t, AfterReconsult(Look(engine, s, s.tasks[t].index)));
  }

  /**
    Rebuilds are conserved: in every run those that begin, with those under way at its start, are those that complete
    with those under way at its end.
   */
  lemma {:induction false} RebuildsBalance(engine: Engine, s: System, actions: seq<Action>)
    requires Sound(engine) && Sane(engine, s)
    ensures |Rebuilding(s)| + Begun(engine, s, actions)
      == Completed(engine, s, actions) + |Rebuilding(Execute(engine, s, actions))|
  {
    hide Act, Sane, Sound, Rebuilding, FindsDown, Publishes;
    if actions != [] {
      RebuildsBalance(engine, s, actions[..|actions| - 1]);
      RebuildStep(engine, Execute(engine, s, actions[..|actions| - 1]), actions[|actions| - 1]);
    }
  }

  lemma TableStep(engine: Engine, s: System, a: Action)
    requires Sound(engine) && Sane(engine, s) && !Publishes(engine, s, a)
    ensures Act(engine, s, a).table == s.table && Act(engine, s, a).built == s.built
  {
    SaneLengths(engine, s);
    hide Look, AllSeen, Sound, TaskSane;
  }

  lemma {:induction false} TableUntilPublished(engine: Engine, s: System, actions: seq<Action>)
    requires Sound(engine) && Sane(engine, s) && Completed(engine, s, actions) == 0
    ensures Execute(engine, s, actions).table == s.table && Execute(engine, s, actions).built == s.built
  {
    hide Act, Sane, Sound, Publishes;
    if actions != [] {
      TableUntilPublished(engine, s, actions[..|actions| - 1]);
      TableStep(engine, Execute(engine, s, actions[..|actions| - 1]), actions[|actions| - 1]);
    }
  }

  /** No rebuild is under way and no first look of the run finds the owner of its slot down. */
  ghost predicate Quiet(engine: Engine, s: System, actions: seq<Action>)
    requires Sound(engine) && Sane(engine, s)
  {
    Rebuilding(s) == {} && Begun(engine, s, actions) == 0
  }

  /**
    When the table lasts under interleaving: through a quiet run it does not change; and a run between two states
    without a rebuild under way publishes a table if and only if it is not quiet.
   */
  lemma TableLasts(engine: Engine, s: System, actions: seq<Action>)
    requires Sound(engine) && Sane(engine, s) && Rebuilding(s) == {}
    ensures Quiet(engine, s, actions) ==>
      var end := Execute(engine, s, actions);
      end.table == s.table && end.built == s.built && Rebuilding(end) == {}
    ensures Rebuilding(Execute(engine, s, actions)) == {} ==>
      (Completed(engine, s, actions) > 0 <==> !Quiet(engine, s, actions))
  {
    hide Execute, Sane, Sound, Begun, Completed;
    RebuildsBalance(engine, s, actions);
    if Quiet(engine, s, actions) {
      TableUntilPublished(engine, s, actions);
    }
  }

  lemma {:induction false} QuietPrefix(engine: Engine, s: System, actions: seq<Action>, k: nat)
    requires Sound(engine) && Sane(engine, s) && Quiet(engine, s, actions) && k < |actions|
    ensures Quiet(engine, s, actions[..k]) && !FindsDown(engine, Execute(engine, s, actions[..k]), actions[k])
  {
    hide Execute, Sane, Sound, FindsDown;
    var last := |actions| - 1;
    if k < last {
      QuietPrefix(engine, s, actions[..last], k);
      assert actions[..last][..k] == actions[..k];
    }
  }

  /** In a quiet run every first look answers the owner that its slot had at the start. */
  lemma QuietLooksAgree(engine: Engine, s: System, actions: seq<Action>, k: nat, t: nat)
    requires Sound(engine) && Sane(engine, s) && Quiet(engine, s, actions) && s.table != []
    requires k < |actions| && actions[k] == Consult(t)
    requires var mid := Execute(engine, s, actions[..k]); t in mid.tasks && mid.tasks[t].Asked?
    ensures var mid := Execute(engine, s, actions[..k]);
      var i := engine.index(mid.tasks[t].key);
      && i < |s.table|
      && Act(engine, mid, Consult(t)).tasks[t] == Answered(Some(s.table[i]))
  {
    var mid := Execute(engine, s, actions[..k]);
    var i := engine.index(mid.tasks[t].key);
    QuietPrefix(engine, s, actions, k);
    TableLasts(engine, s, actions[..k]);
    SoundIndex(engine, mid.tasks[t].key);
    GlanceIsAnswer(engine, mid, i);
    hide Execute, Sane, Sound, Quiet, Look, AllSeen, TaskSane;
    assert Look(engine, mid, i).Up?;
  }

  /**
    Affinity under interleaving: after a quiet run, whatever failed and recovered in it, a lookup that runs undisturbed
    answers the owner that its slot had at the start if and only if that backend is up.
   */
  lemma QuietSticky(engine: Engine, s: System, actions: seq<Action>, t: nat)
    requires Sound(engine) && Sane(engine, s) && Quiet(engine, s, actions) && s.table != []
    requires var end := Execute(engine, s, actions); t in end.tasks && end.tasks[t].Asked?
    ensures var end := Execute(engine, s, actions);
      var i := engine.index(end.tasks[t].key);
      && i < |s.table| && s.table[i] < |end.flags|
      && t in Solo(engine, end, t).tasks && Solo(engine, end, t).tasks[t].Answered?
      && (Solo(engine, end, t).tasks[t].result == Some(s.table[i]) <==> end.flags[s.table[i]])
  {
    TableLasts(engine, s, actions);
    var end := Execute(engine, s, actions);
    SaneLengths(engine, end);
    hide Execute, Solo, Quiet, LookupStep, AllSeen, TaskSane, Rebuilding;
    var atomic := LookupTable.State(end.flags, end.table, end.built);
    SoloIsLookup(engine, end, t, atomic, Solo(engine, end, t));
    LookupKeepsExactly(engine, atomic, end.tasks[t].key);
  }

  // ----- when the table is empty -----

  /** The flags that the last rebuild of the run collected; the given ones if there was none. */
  ghost function LastPublished(engine: Engine, s: System, actions: seq<Action>): seq<bool>
    requires Sound(engine) && Sane(engine, s)
  {
    if actions == [] then s.built
    else
      var init, a := actions[..|actions| - 1], actions[|actions| - 1];
      var mid := Execute(engine, s, init);
      if Publishes(engine, mid, a) then mid.tasks[a.t].seen else LastPublished(engine, s, init)
  }

  lemma BuiltStep(engine: Engine, s: System, a: Action)
    requires Sound(engine) && Sane(engine, s)
    ensures Act(engine, s, a).built ==
      if Publishes(engine, s, a) then s.tasks[a.t].seen else s.built
  {
    SaneLengths(engine, s);
    hide Look, AllSeen, Sound, TaskSane;
  }

  lemma {:induction false} BuiltIsLastPublished(engine: Engine, s: System, actions: seq<Action>)
    requires Sound(engine) && Sane(engine, s)
    ensures Execute(engine, s, actions).built == LastPublished(engine, s, actions)
  {
    hide Act, Sane, Sound;
    if actions != [] {
      BuiltIsLastPublished(engine, s, actions[..|actions| - 1]);
      BuiltStep(engine, Execute(engine, s, actions[..|actions| - 1]), actions[|actions| - 1]);
    }
  }

  /**
    Availability with concurrent lookups and rebuilds, exactly: the table is empty if and only if the flags that the
    last rebuild collected, one after the other, all read as down; and a lookup that then runs undisturbed succeeds
    if and only if the table is not empty and something is up.
   */
  lemma AvailabilityExact(engine: Engine, s0: System, actions: seq<Action>, t: nat)
    requires Sound(engine) && Serves(engine) && Sane(engine, s0)
    requires var s := Execute(engine, s0, actions); t in s.tasks && s.tasks[t].Asked?
    ensures var s := Execute(engine, s0, actions);
      && (s.table == [] <==> !SomeAlive(LastPublished(engine, s0, actions)))
      && t in Solo(engine, s, t).tasks && Solo(engine, s, t).tasks[t].Answered?
      && (Solo(engine, s, t).tasks[t].result.Some? <==>
            SomeAlive(LastPublished(engine, s0, actions)) && SomeAlive(s.flags))
  {
    var s := Execute(engine, s0, actions);
    BuiltIsLastPublished(engine, s0, actions);
    SaneLengths(engine, s);
    hide Execute, Serves, Solo, LookupStep, SomeAlive, LastPublished;
    BuiltShape(engine, s.built);
    var atomic := LookupTable.State(s.flags, s.table, s.built);
    SoloIsLookup(engine, s, t, atomic, Solo(engine, s, t));
    LookupExact(engine, atomic, s.tasks[t].key);
  }

  /** The table is gone and no rebuild under way will bring one. */
  ghost predicate Hopeless(engine: Engine, s: System) {
    && s.table == []
    && forall t :: t in s.tasks && s.tasks[t].Collecting? ==>
        |s.tasks[t].seen| == engine.count && true !in s.tasks[t].seen
  }

  lemma HopelessStep(engine: Engine, s: System, a: Action)
    requires Sound(engine) && Sane(engine, s) && Hopeless(engine, s)
    ensures Hopeless(engine, Act(engine, s, a))
  {
    SaneLengths(engine, s);
    if a.Publish? && a.t in s.tasks && s.tasks[a.t].Collecting? {
      BuiltShape(engine, s.tasks[a.t].seen);
    }
    hide AllSeen, Sound, TaskSane;
  }

  lemma {:induction false} HopelessRun(engine: Engine, s: System, actions: seq<Action>)
    requires Sound(engine) && Sane(engine, s) && Hopeless(engine, s)
    ensures Execute(engine, s, actions).table == [] && Hopeless(engine, Execute(engine, s, actions))
  {
    hide Act, Sane, Sound;
    if actions != [] {
      HopelessRun(engine, s, actions[..|actions| - 1]);
      HopelessStep(engine, Execute(engine, s, actions[..|actions| - 1]), actions[|actions| - 1]);
    }
  }

  /** A rebuild under way that has seen a backend up publishes a table. */
  lemma PublishRevives(engine: Engine, s: System, t: nat)
    requires Sound(engine) && Serves(engine) && Sane(engine, s) && t in s.tasks && s.tasks[t].Collecting?
    requires |s.tasks[t].seen| == engine.count && true in s.tasks[t].seen
    ensures Act(engine, s, Publish(t)).table != []
  {
    SaneLengths(engine, s);
    assert SomeAlive(s.tasks[t].seen);
  }

  /** A rebuild under way that has not finished reading may still see a backend come up. */
  lemma ReadingRevives(engine: Engine, s: System, t: nat) returns (actions: seq<Action>)
    requires Sound(engine) && Serves(engine) && Sane(engine, s) && t in s.tasks && s.tasks[t].Collecting?
    requires |s.tasks[t].seen| < engine.count
    ensures Execute(engine, s, actions).table != []
  {
    hide Serves, Sound, Sane, Act, Execute, Gathered;
    SaneLengths(engine, s);
    var seen, n := s.tasks[t].seen, engine.count - |s.tasks[t].seen|;
    var up := Act(engine, s, Flip(|seen|, true));
    actions := [Flip(|seen|, true)] + Reads(t, n);
    Revival(engine, s, t);
    ExecuteSplit(engine, s, [Flip(|seen|, true)], Reads(t, n));
    ExecuteLast(engine, s, [], Flip(|seen|, true));
    assert [] + [Flip(|seen|, true)] == [Flip(|seen|, true)];
    ExecuteNone(engine, s);
    ReadsCollect(engine, up, t, n);
    assert Gathered(up.flags, seen, n)[|seen|] in Gathered(up.flags, seen, n);
    PublishRevives(engine, Execute(engine, s, actions), t);
    ExecuteLast(engine, s, actions, Publish(t));
    actions := actions + [Publish(t)];
  }

  /** What one flip does for a rebuild about to read that flag. */
  lemma Revival(engine: Engine, s: System, t: nat)
    requires Sound(engine) && Sane(engine, s) && t in s.tasks && s.tasks[t].Collecting?
    requires |s.tasks[t].seen| < engine.count
    ensures var up := Act(engine, s, Flip(|s.tasks[t].seen|, true));
      && Sane(engine, up) && |up.flags| == engine.count && up.tasks == s.tasks
      && forall n :: |s.tasks[t].seen| + n == engine.count && n > 0 ==>
          Gathered(up.flags, s.tasks[t].seen, n)[|s.tasks[t].seen|]
  {
    SaneKept(engine, s, Flip(|s.tasks[t].seen|, true));
  }

  lemma ExecuteNone(engine: Engine, s: System)
    requires Sound(engine) && Sane(engine, s)
    ensures Execute(engine, s, []) == s
  {
  }

  lemma {:induction false} ExecuteSplit(engine: Engine, s: System, first: seq<Action>, more: seq<Action>)
    requires Sound(engine) && Sane(engine, s)
    ensures Execute(engine, s, first + more) == Execute(engine, Execute(engine, s, first), more)
  {
    hide Sound, Sane, Act;
    if more == [] {
      assert first + more == first;
    } else {
      assert (first + more)[..|first + more| - 1] == first + more[..|more| - 1];
      ExecuteSplit(engine, s, first, more[..|more| - 1]);
    }
  }

  /**
    When the table is lost for ever, exactly: no continuation of the run, whatever comes up, ever gives a table again if
    and only if the table is empty and every rebuild under way has read all flags as down.
   */
  lemma LostForEver(engine: Engine, s: System)
    requires Sound(engine) && Serves(engine) && Sane(engine, s)
    ensures (forall actions :: Execute(engine, s, actions).table == []) <==> Hopeless(engine, s)
  {
    hide Execute, Sane, Sound, Serves, Act;
    if Hopeless(engine, s) {
      forall actions
        ensures Execute(engine, s, actions).table == []
      {
        HopelessRun(engine, s, actions);
      }
    } else if s.table != [] {
      ExecuteNone(engine, s);
    } else {
      var t :| t in s.tasks && s.tasks[t].Collecting?
            && !(|s.tasks[t].seen| == engine.count && true !in s.tasks[t].seen);
      var actions := Comeback(engine, s, t);
      assert Execute(engine, s, actions).table != [];
    }
  }

  lemma Comeback(engine: Engine, s: System, t: nat) returns (actions: seq<Action>)
    requires Sound(engine) && Serves(engine) && Sane(engine, s) && t in s.tasks && s.tasks[t].Collecting?
    requires |s.tasks[t].seen| != engine.count || true in s.tasks[t].seen
    ensures Execute(engine, s, actions).table != []
  {
    hide Execute, Sound, Serves, Act;
    assert TaskSane(engine, s.past, s.tasks[t]);
    if |s.tasks[t].seen| < engine.count {
      actions := ReadingRevives(engine, s, t);
    } else {
      PublishRevives(engine, s, t);
      ExecuteNone(engine, s);
      ExecuteLast(engine, s, [], Publish(t));
      actions := [] + [Publish(t)];
    }
  }
}
