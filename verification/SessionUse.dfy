/** What counts as a use of a session, and how long a use keeps the session in the table. */
module SessionUse {
  import opened Net
  import opened Sessions
  import opened SessionProtocol

  /** Action a uses session k: a touch, a lookup that hits, or an insertion that finds it there. */
  ghost predicate Uses(s: State, a: Action, k: Key) {
    || a == Touch(k)
    || (a.LookUp? && a.t in s.tasks && s.tasks[a.t] == Looking(k))
    || (a.Insert? && a.t in s.tasks && s.tasks[a.t].Bound? && s.tasks[a.t].key == k)
  }

  /** A use records the time at which it happens and leaves the socket; nothing else writes to a session. */
  lemma UseRecorded(s: State, a: Action, k: Key)
    requires k in s.sessions
    ensures Uses(s, a, k) ==>
      && k in Step(s, a).sessions
      && Step(s, a).sessions[k] == Session(s.sessions[k].backend, s.sessions[k].socket, s.clock)
    ensures !Uses(s, a, k) && k in Step(s, a).sessions ==> Step(s, a).sessions[k] == s.sessions[k]
  {
  }

  /** A session enters the table only by the insertion of a task, with the socket and the time of its binding. */
  lemma EntryRecorded(s: State, a: Action, k: Key)
    requires k !in s.sessions && k in Step(s, a).sessions
    ensures a.Insert? && a.t in s.tasks && s.tasks[a.t].Bound? && s.tasks[a.t].key == k
    ensures Step(s, a).sessions[k] == Session(k.backend, s.tasks[a.t].socket, s.tasks[a.t].stamp)
  {
  }

  /** Session k has been used no earlier than `since`. */
  ghost predicate UsedSince(s: State, k: Key, since: nat) {
    k in s.sessions && since <= s.sessions[k].lastActivity
  }

  lemma UsedStep(s: State, a: Action, k: Key, since: nat)
    requires Invariant(s) && UsedSince(s, k, since)
    ensures Step(s, a).clock <= since + s.timeout ==>
      UsedSince(Step(s, a), k, since) && Step(s, a).sessions[k].socket == s.sessions[k].socket
    ensures s.clock <= Step(s, a).clock
  {
    ClockStep(s, a);
    assert TimesSane(s);
    hide Step, Invariant, TimesSane;
    if k in Step(s, a).sessions {
      UseRecorded(s, a, k);
    } else {
      OnlyIdleEvicted(s, a, k);
    }
  }

  lemma ClockStep(s: State, a: Action)
    ensures s.clock <= Step(s, a).clock && Step(s, a).timeout == s.timeout
  {
  }

  /** A use keeps a session in the table for the whole timeout after it, whatever happens, sweeps included. */
  lemma {:induction false} UsedStays(s: State, actions: seq<Action>, k: Key, since: nat)
    requires Invariant(s) && UsedSince(s, k, since)
    ensures Invariant(Run(s, actions)) && Run(s, actions).timeout == s.timeout && s.clock <= Run(s, actions).clock
    ensures Run(s, actions).clock <= since + s.timeout ==>
      UsedSince(Run(s, actions), k, since) && Run(s, actions).sessions[k].socket == s.sessions[k].socket
  {
    hide Step, Invariant, UsedSince;
    if actions != [] {
      var init, a := actions[..|actions| - 1], actions[|actions| - 1];
      UsedStays(s, init, k, since);
      InvariantKept(Run(s, init), a);
      ClockStep(Run(s, init), a);
      if Run(s, init).clock <= since + s.timeout {
        UsedStep(Run(s, init), a, k, since);
      }
    }
  }

  lemma InvariantKept(s: State, a: Action)
    requires Invariant(s)
    ensures Invariant(Step(s, a))
  {
    hide Step, Ownership, Timing;
    OwnershipKept(s, a);
    TimingKept(s, a);
  }

  /** The times that task t has recorded, if any, are no earlier than `since`. */
  ghost predicate RecordedSince(s: State, t: nat, since: nat) {
    && t in s.tasks && since <= s.clock
    && (s.tasks[t].Bound? ==> since <= s.tasks[t].stamp)
    && (s.tasks[t].Holding? || s.tasks[t].Waiting? ==> since <= s.tasks[t].at)
  }

  lemma RecordedStep(s: State, a: Action, t: nat, since: nat)
    requires RecordedSince(s, t, since)
    ensures RecordedSince(Step(s, a), t, since)
  {
    hide LookUpStep, InsertStep, SendStep, ReceiveStep, VisitStep, TouchNow, Queue;
    TasksChange(s);
    ClockStep(s, a);
  }

  /** Whatever a lookup records, it records a time no earlier than one at which it was still looking. */
  lemma {:induction false} LookupsRecordTheirTime(s: State, actions: seq<Action>, t: nat)
    requires t in s.tasks && (s.tasks[t].Looking? || s.tasks[t].Missed?)
    ensures RecordedSince(Run(s, actions), t, s.clock)
  {
    hide Step, RecordedSince;
    if actions == [] {
      NothingRecorded(s, t);
    } else {
      LookupsRecordTheirTime(s, actions[..|actions| - 1], t);
      RecordedStep(Run(s, actions[..|actions| - 1]), actions[|actions| - 1], t, s.clock);
    }
  }

  lemma NothingRecorded(s: State, t: nat)
    requires t in s.tasks && (s.tasks[t].Looking? || s.tasks[t].Missed?)
    ensures RecordedSince(s, t, s.clock)
  {
  }

  /**
    A lookup keeps its session: what it was looked up with at one time stays in the table under the same socket for the
    whole timeout from then on, whatever the task and everybody else do, and however often the table is swept.
   */
  lemma LookedUpStays(timeout: nat, first: seq<Action>, more: seq<Action>, rest: seq<Action>, t: nat)
    requires var s := Run(Start(timeout), first); t in s.tasks && (s.tasks[t].Looking? || s.tasks[t].Missed?)
    requires var mid := Run(Run(Start(timeout), first), more);
      t in mid.tasks && (mid.tasks[t].Holding? || mid.tasks[t].Waiting?)
    requires Run(Run(Run(Start(timeout), first), more), rest).clock <= Run(Start(timeout), first).clock + timeout
    ensures var mid, end := Run(Run(Start(timeout), first), more), Run(Run(Run(Start(timeout), first), more), rest);
      mid.tasks[t].key in end.sessions && end.sessions[mid.tasks[t].key].socket == mid.tasks[t].socket
  {
    hide Step, Run, Start, RecordedSince;
    var s := Run(Start(timeout), first);
    var mid := Run(s, more);
    RunSplit(Start(timeout), first, more);
    Reachable(timeout, first + more);
    TimeoutFixed(timeout, first + more);
    LookupsRecordTheirTime(s, more, t);
    ClockRuns(mid, rest);
    RecordedSays(mid, t, s.clock);
    assert LeaseHeld(mid, t);
    UsedStays(mid, rest, mid.tasks[t].key, mid.tasks[t].at);
  }

  lemma RecordedSays(s: State, t: nat, since: nat)
    requires RecordedSince(s, t, since) && (s.tasks[t].Holding? || s.tasks[t].Waiting?)
    ensures since <= s.tasks[t].at
  {
  }

  lemma {:induction false} ClockRuns(s: State, actions: seq<Action>)
    ensures s.clock <= Run(s, actions).clock
  {
    hide Step;
    if actions != [] {
      ClockRuns(s, actions[..|actions| - 1]);
      ClockStep(Run(s, actions[..|actions| - 1]), actions[|actions| - 1]);
    }
  }

  // ----- how a lookup goes -----

  /** A task begins by looking; a hit ends its lookup with the session's socket, at the time of the hit. */
  lemma LookupBegins(s: State, t: nat, key: Key)
    ensures t !in s.tasks ==> t in Step(s, Spawn(t, key)).tasks && Step(s, Spawn(t, key)).tasks[t] == Looking(key)
    ensures t in s.tasks && s.tasks[t] == Looking(key) ==>
      && t in Step(s, LookUp(t)).tasks
      && Step(s, LookUp(t)).tasks[t]
        == if key in s.sessions then Holding(key, s.sessions[key].socket, s.clock) else Missed(key)
  {
  }

  /** A miss binds a socket nobody has, at the time of the binding, or ends in failure. */
  lemma MissGoesOn(s: State, t: nat, socket: nat)
    requires t in s.tasks && s.tasks[t].Missed?
    ensures t in Step(s, BindFails(t)).tasks && Step(s, BindFails(t)).tasks[t] == Failed(s.tasks[t].key)
    ensures var s' := Step(s, Bind(t, socket));
      t in s'.tasks && s'.tasks[t] == if socket in s.owner then s.tasks[t] else Bound(s.tasks[t].key, socket, s.clock)
    ensures socket !in s.owner ==> Step(s, Bind(t, socket)).owner == s.owner[socket := s.tasks[t].key]
  {
  }

  /** An insertion ends the lookup: with the socket bound if it is the first, and otherwise with the one there is. */
  lemma InsertEnds(s: State, t: nat)
    requires t in s.tasks && s.tasks[t].Bound?
    ensures var x, s' := s.tasks[t], Step(s, Insert(t));
      && t in s'.tasks
      && s'.tasks[t] == (if x.key in s.sessions then Holding(x.key, s.sessions[x.key].socket, s.clock)
                         else Holding(x.key, x.socket, x.stamp))
      && s'.lost == if x.key in s.sessions then s.lost + {x.socket} else s.lost
  {
  }

  // ----- how a task ends -----

  /** The three ways in which a wait ends. */
  ghost predicate EndsWait(s: State, a: Action, t: nat)
    requires t in s.tasks && s.tasks[t].Waiting?
  {
    || (a == Receive(t) && Queue(s, s.tasks[t].socket) != [])
    || (a == TimeOut(t) && s.tasks[t].since + s.timeout <= s.clock)
    || a == ReceiveFails(t)
  }

  /**
    A wait ends with the datagram at the head of the queue of the task's socket, which is returned unless it is empty,
    or with nothing: once the timeout has passed since the send, or with a failed receive.
   */
  lemma WaitEnds(s: State, a: Action, t: nat)
    requires t in s.tasks && s.tasks[t].Waiting? && EndsWait(s, a, t)
    ensures var x, queue := s.tasks[t], Queue(s, s.tasks[t].socket);
      t in Step(s, a).tasks && Step(s, a).tasks[t] == Done(x.key, x.socket,
        if a == Receive(t) && queue[0].bytes != [] then Some(queue[0]) else None)
  {
    hide Queue;
  }

  lemma WaitGoesOn(s: State, a: Action, t: nat)
    requires t in s.tasks && s.tasks[t].Waiting? && !EndsWait(s, a, t)
    ensures t in Step(s, a).tasks && Step(s, a).tasks[t] == s.tasks[t]
  {
    hide LookUpStep, InsertStep, SendStep, ReceiveStep, VisitStep, TouchNow, Queue, AfterSend;
    TasksChange(s);
  }

  /** What is sent goes out on the task's socket, and the task waits from then on; after sending nothing it is done. */
  lemma SendEnds(s: State, t: nat, payload: seq<Byte>)
    requires t in s.tasks && s.tasks[t].Holding?
    ensures var x, s' := s.tasks[t], Step(s, Send(t, payload));
      && s'.sent == s.sent + [Sending(x.socket, x.key, payload)] && t in s'.tasks
      && s'.tasks[t] == if payload == [] then Done(x.key, x.socket, None) else Waiting(x.key, x.socket, x.at, s.clock)
    ensures t in Step(s, SendFails(t)).tasks && Step(s, SendFails(t)).tasks[t] == Failed(s.tasks[t].key)
  {
  }

  lemma HoldingGoesOn(s: State, a: Action, t: nat)
    requires t in s.tasks && s.tasks[t].Holding? && !(a.Send? && a.t == t) && a != SendFails(t)
    ensures t in Step(s, a).tasks && Step(s, a).tasks[t] == s.tasks[t]
  {
    hide LookUpStep, InsertStep, SendStep, ReceiveStep, VisitStep, TouchNow, Queue, AfterReceive;
    TasksChange(s);
  }
}
