/**
  Forwarding as a transition system: any number of tasks look up, bind, insert, send and wait, interleaved with
  touches, a sweep that visits one session at a time, the passing of time, and responses arriving from backends.
  Every action is one atomic step of the session table; an action that is not enabled changes nothing.
 */
module SessionProtocol {
  import opened Net
  import opened Sessions

  datatype Response = Response(from: SocketAddr, bytes: seq<Byte>)

  /**
    A task forwards one payload of key.client to key.backend; `at` is the activity time its lookup recorded,
    `since` the time at which it began to wait for the response.
   */
  datatype Task =
    | Looking(key: Key)
    | Missed(key: Key)
    | Bound(key: Key, socket: nat, stamp: nat)
    | Holding(key: Key, socket: nat, at: nat)
    | Waiting(key: Key, socket: nat, at: nat, since: nat)
    | Done(key: Key, socket: nat, response: Option<Response>)
    | Failed(key: Key)
  {
    /** The lookup has returned a socket. */
    predicate Resolved() {
      Holding? || Waiting? || Done?
    }

    predicate HasSocket() {
      Bound? || Resolved()
    }
  }

  datatype Sweep = Sweep(now: nat, pending: set<Key>)

  /** A payload that was sent on a socket, from a client and for a backend. */
  datatype Sending = Sending(socket: nat, key: Key, payload: seq<Byte>)

  /** A datagram that arrived on a socket, and one that task t took off its queue. */
  datatype Arrival = Arrival(socket: nat, response: Response)

  datatype Taking = Taking(t: nat, arrival: Arrival)

  /**
    `touched` remembers when each session was last inserted or touched, `owner` for which key every socket was bound,
    `lost` the sockets of tasks that lost the insertion race, `sent` every payload sent, `swept` the start of the last
    sweep that completed, `arrived` every datagram that arrived on a socket and `taken` every one that a task took off,
    in order. These seven are history; the code does not keep them.
   */
  datatype State = State(
    clock: nat,
    timeout: nat,
    sessions: Table,
    tasks: map<nat, Task>,
    inbox: map<nat, seq<Response>>,
    sweep: Option<Sweep>,
    touched: map<Key, nat>,
    owner: map<nat, Key>,
    lost: set<nat>,
    sent: seq<Sending>,
    swept: nat,
    arrived: seq<Arrival>,
    taken: seq<Taking>)

  datatype Action =
    | Tick
    | Spawn(t: nat, key: Key)
    | LookUp(t: nat)
    | BindFails(t: nat)
    | Bind(t: nat, socket: nat)
    | Insert(t: nat)
    | Touch(key: Key)
    | Send(t: nat, payload: seq<Byte>)
    | SendFails(t: nat)
    | Arrive(socket: nat, response: Response)
    | Receive(t: nat)
    | TimeOut(t: nat)
    | ReceiveFails(t: nat)
    | SweepStart
    | SweepVisit(key: Key)
    | SweepEnd

  function Start(timeout: nat): State {
    State(0, timeout, map[], map[], map[], None, map[], map[], {}, [], 0, [], [])
  }

  // Steps are put together from these updates of the state.

  function SetTask(s: State, t: nat, x: Task): State {
    s.(tasks := s.tasks[t := x])
  }

  function TouchNow(s: State, k: Key): State {
    if k in s.sessions
    then s.(sessions := Touched(s.sessions, k, s.clock), touched := s.touched[k := s.clock])
    else s
  }

  function AddSocket(s: State, socket: nat, k: Key): State {
    s.(owner := s.owner[socket := k])
  }

  function AddLost(s: State, socket: nat): State {
    s.(lost := s.lost + {socket})
  }

  /** The winner of the race: the session record made when the socket was bound enters the table. */
  function AddSession(s: State, t: nat, k: Key, socket: nat, stamp: nat): State {
    SetTask(s, t, Holding(k, socket, stamp)).(
      sessions := InsertedIfAbsent(s.sessions, k, Session(k.backend, socket, stamp), s.clock),
      touched := s.touched[k := s.clock])
  }

  function RemoveSession(s: State, k: Key): State {
    s.(sessions := s.sessions - {k}, touched := s.touched - {k})
  }

  function SetQueue(s: State, socket: nat, q: seq<Response>): State {
    s.(inbox := s.inbox[socket := q])
  }

  /** The fast path: a hit touches the session and ends the lookup. */
  function LookUpStep(s: State, t: nat, k: Key): State {
    if k in s.sessions
    then SetTask(TouchNow(s, k), t, Holding(k, s.sessions[k].socket, s.clock))
    else SetTask(s, t, Missed(k))
  }

  /** Insert-if-absent: the loser of a race uses the winner's session and drops its own socket. */
  function InsertStep(s: State, t: nat, k: Key, socket: nat, stamp: nat): State {
    if k in s.sessions
    then AddLost(SetTask(TouchNow(s, k), t, Holding(k, s.sessions[k].socket, s.clock)), socket)
    else AddSession(s, t, k, socket, stamp)
  }

  /** After sending nothing there is nothing to wait for. */
  function AfterSend(k: Key, socket: nat, at: nat, payload: seq<Byte>, now: nat): Task {
    if payload == [] then Done(k, socket, None) else Waiting(k, socket, at, now)
  }

  function SendStep(s: State, t: nat, k: Key, socket: nat, at: nat, payload: seq<Byte>): State {
    SetTask(s, t, AfterSend(k, socket, at, payload, s.clock)).(sent := s.sent + [Sending(socket, k, payload)])
  }

  /** An empty datagram is taken off the socket but returned as no response. */
  function AfterReceive(k: Key, socket: nat, response: Response): Task {
    Done(k, socket, if response.bytes == [] then None else Some(response))
  }

  function ReceiveStep(s: State, t: nat, k: Key, socket: nat): State
    requires Queue(s, socket) != []
  {
    SetQueue(SetTask(s, t, AfterReceive(k, socket, Queue(s, socket)[0])), socket, Queue(s, socket)[1..]).(
      taken := s.taken + [Taking(t, Arrival(socket, Queue(s, socket)[0]))])
  }

  function ArriveStep(s: State, socket: nat, response: Response): State {
    SetQueue(s, socket, Queue(s, socket) + [response]).(arrived := s.arrived + [Arrival(socket, response)])
  }

  /** The sweep looks at one session and removes it if it has expired. */
  function VisitStep(s: State, k: Key): State
    requires s.sweep.Some?
  {
    var s' := if k in s.sessions && Expired(s.sessions[k], s.sweep.value.now, s.timeout)
      then RemoveSession(s, k) else s;
    s'.(sweep := Some(s.sweep.value.(pending := s.sweep.value.pending - {k})))
  }

  function Step(s: State, a: Action): State {
    match a
    case Tick => s.(clock := s.clock + 1)
    case Spawn(t, key) => if t in s.tasks then s else SetTask(s, t, Looking(key))
    case LookUp(t) => if t in s.tasks && s.tasks[t].Looking? then LookUpStep(s, t, s.tasks[t].key) else s
    case BindFails(t) => if t in s.tasks && s.tasks[t].Missed? then SetTask(s, t, Failed(s.tasks[t].key)) else s
    case Bind(t, socket) =>
      // the operating system hands out a socket that nobody has, connected to the backend
      if t in s.tasks && s.tasks[t].Missed? && socket !in s.owner
      then SetTask(AddSocket(s, socket, s.tasks[t].key), t, Bound(s.tasks[t].key, socket, s.clock))
      else s
    case Insert(t) =>
      if t in s.tasks && s.tasks[t].Bound?
      then InsertStep(s, t, s.tasks[t].key, s.tasks[t].socket, s.tasks[t].stamp) else s
    case Touch(key) => TouchNow(s, key)
    case Send(t, payload) =>
      if t in s.tasks && s.tasks[t].Holding?
      then SendStep(s, t, s.tasks[t].key, s.tasks[t].socket, s.tasks[t].at, payload) else s
    case SendFails(t) => if t in s.tasks && s.tasks[t].Holding? then SetTask(s, t, Failed(s.tasks[t].key)) else s
    case Arrive(socket, response) =>
      // a connected socket only accepts datagrams from its peer
      if socket in s.owner && response.from == s.owner[socket].backend
      then ArriveStep(s, socket, response) else s
    case Receive(t) =>
      if t in s.tasks && s.tasks[t].Waiting? && Queue(s, s.tasks[t].socket) != []
      then ReceiveStep(s, t, s.tasks[t].key, s.tasks[t].socket) else s
    case TimeOut(t) =>
      // no datagram within the response timeout, which is the session timeout
      if t in s.tasks && s.tasks[t].Waiting? && s.tasks[t].since + s.timeout <= s.clock
      then SetTask(s, t, Done(s.tasks[t].key, s.tasks[t].socket, None)) else s
    case ReceiveFails(t) =>
      if t in s.tasks && s.tasks[t].Waiting? then SetTask(s, t, Done(s.tasks[t].key, s.tasks[t].socket, None)) else s
    case SweepStart => if s.sweep.None? then s.(sweep := Some(Sweep(s.clock, s.sessions.Keys))) else s
    case SweepVisit(key) => if s.sweep.Some? then VisitStep(s, key) else s
    case SweepEnd =>
      if s.sweep.Some? && s.sweep.value.pending == {} then s.(sweep := None, swept := s.sweep.value.now) else s
  }

  function Queue(s: State, socket: nat): seq<Response> {
    if socket in s.inbox then s.inbox[socket] else []
  }

  function Run(s: State, actions: seq<Action>): State {
    if actions == [] then s else Step(Run(s, actions[..|actions| - 1]), actions[|actions| - 1])
  }

  // ----- invariants -----

  /** Every session's socket was bound for exactly its key, and did not lose a race. */
  ghost predicate SessionsOwned(s: State) {
    forall k :: k in s.sessions ==>
      && s.sessions[k].socket in s.owner && s.owner[s.sessions[k].socket] == k
      && s.sessions[k].backend == k.backend && s.sessions[k].socket !in s.lost
  }

  ghost predicate TasksOwned(s: State) {
    forall t :: t in s.tasks && s.tasks[t].HasSocket() ==>
      && s.tasks[t].socket in s.owner && s.owner[s.tasks[t].socket] == s.tasks[t].key
      && s.tasks[t].socket !in s.lost
  }

  /** A socket that is bound but not yet inserted is known to its task alone. */
  ghost predicate BoundPrivate(s: State) {
    && (forall t, u :: t in s.tasks && u in s.tasks && t != u && s.tasks[t].Bound? && s.tasks[u].HasSocket() ==>
          s.tasks[t].socket != s.tasks[u].socket)
    && (forall t, k :: t in s.tasks && s.tasks[t].Bound? && k in s.sessions ==>
          s.tasks[t].socket != s.sessions[k].socket)
  }

  /** Only what its owner key stands for was ever sent on a socket, and only that key's backend ever answered on it. */
  ghost predicate TrafficOwned(s: State) {
    && (forall i :: 0 <= i < |s.sent| ==> s.sent[i].socket in s.owner && s.sent[i].key == s.owner[s.sent[i].socket])
    && (forall socket :: socket in s.inbox ==> socket in s.owner)
    && (forall socket, i :: socket in s.inbox && 0 <= i < |s.inbox[socket]| ==>
          s.inbox[socket][i].from == s.owner[socket].backend)
    && (forall t :: t in s.tasks && s.tasks[t].Done? && s.tasks[t].response.Some? ==>
          s.tasks[t].response.value.from == s.tasks[t].key.backend)
  }

  /** Recorded times are in the past, and a sweep in progress started in the past. */
  ghost predicate TimesSane(s: State) {
    && s.touched.Keys == s.sessions.Keys
    && (forall k :: k in s.sessions ==> s.sessions[k].lastActivity <= s.touched[k] <= s.clock)
    && (forall t :: t in s.tasks && s.tasks[t].Bound? ==> s.tasks[t].stamp <= s.clock)
    && (forall t :: t in s.tasks && (s.tasks[t].Holding? || s.tasks[t].Waiting?) ==> s.tasks[t].at <= s.clock)
    && (forall t :: t in s.tasks && s.tasks[t].Waiting? ==> s.tasks[t].at <= s.tasks[t].since <= s.clock)
    && s.swept <= s.clock && (s.sweep.Some? ==> s.swept <= s.sweep.value.now <= s.clock)
  }

  /** Every session was touched within the timeout of the last completed sweep, and of the current one once visited. */
  ghost predicate SweptRecently(s: State) {
    && (forall k :: k in s.sessions ==> k in s.touched && s.swept <= s.touched[k] + s.timeout)
    && (s.sweep.Some? ==> forall k :: k in s.sessions && k !in s.sweep.value.pending ==>
          k in s.touched && s.sweep.value.now <= s.touched[k] + s.timeout)
  }

  /** Until more than the timeout has passed since its lookup, a task's session is still the one in the table. */
  ghost predicate LeaseHeld(s: State, t: nat)
    requires t in s.tasks && (s.tasks[t].Holding? || s.tasks[t].Waiting?)
  {
    s.clock <= s.tasks[t].at + s.timeout ==>
      var k := s.tasks[t].key;
      k in s.sessions && s.sessions[k].socket == s.tasks[t].socket && s.tasks[t].at <= s.sessions[k].lastActivity
  }

  ghost predicate LeasesHeld(s: State) {
    forall t :: t in s.tasks && (s.tasks[t].Holding? || s.tasks[t].Waiting?) ==> LeaseHeld(s, t)
  }

  /** Who owns what: independent of time. */
  ghost predicate Ownership(s: State) {
    SessionsOwned(s) && TasksOwned(s) && BoundPrivate(s) && TrafficOwned(s) && s.lost <= s.owner.Keys
  }

  /** What holds of the recorded times. */
  ghost predicate Timing(s: State) {
    TimesSane(s) && SweptRecently(s) && LeasesHeld(s)
  }

  ghost predicate Invariant(s: State) {
    Ownership(s) && Timing(s)
  }

  // ----- ownership -----

  /** A task's new state respects the ownership of sockets. */
  ghost predicate Fits(s: State, t: nat, x: Task) {
    && (x.HasSocket() ==>
          && x.socket in s.owner && s.owner[x.socket] == x.key && x.socket !in s.lost
          && (forall u :: u in s.tasks && u != t && s.tasks[u].Bound? ==> s.tasks[u].socket != x.socket))
    && (x.Bound? ==>
          && (forall u :: u in s.tasks && u != t && s.tasks[u].HasSocket() ==> s.tasks[u].socket != x.socket)
          && (forall k :: k in s.sessions ==> s.sessions[k].socket != x.socket))
    && (x.Done? && x.response.Some? ==> x.response.value.from == x.key.backend)
  }

  lemma SetTaskOwnership(s: State, t: nat, x: Task)
    requires Ownership(s) && Fits(s, t, x)
    ensures Ownership(SetTask(s, t, x))
  {
    var s' := SetTask(s, t, x);
    assert TasksOwned(s') && BoundPrivate(s') && TrafficOwned(s');
  }

  lemma TouchNowOwnership(s: State, k: Key)
    requires Ownership(s)
    ensures Ownership(TouchNow(s, k))
  {
    var s' := TouchNow(s, k);
    assert SessionsOwned(s') && BoundPrivate(s') && TrafficOwned(s');
  }

  lemma AddSocketOwnership(s: State, socket: nat, k: Key)
    requires Ownership(s) && socket !in s.owner
    ensures Ownership(AddSocket(s, socket, k))
  {
    var s' := AddSocket(s, socket, k);
    assert SessionsOwned(s') && TasksOwned(s') && TrafficOwned(s');
  }

  lemma AddLostOwnership(s: State, socket: nat)
    requires Ownership(s) && socket in s.owner
    requires forall u :: u in s.tasks && s.tasks[u].HasSocket() ==> s.tasks[u].socket != socket
    requires forall k :: k in s.sessions ==> s.sessions[k].socket != socket
    ensures Ownership(AddLost(s, socket))
  {
  }

  lemma AddSessionOwnership(s: State, t: nat)
    requires Ownership(s) && t in s.tasks && s.tasks[t].Bound? && s.tasks[t].key !in s.sessions
    ensures Ownership(AddSession(s, t, s.tasks[t].key, s.tasks[t].socket, s.tasks[t].stamp))
  {
    var s' := AddSession(s, t, s.tasks[t].key, s.tasks[t].socket, s.tasks[t].stamp);
    assert SessionsOwned(s') && TasksOwned(s') && BoundPrivate(s') && TrafficOwned(s');
  }

  lemma RemoveSessionOwnership(s: State, k: Key)
    requires Ownership(s)
    ensures Ownership(RemoveSession(s, k))
  {
  }

  lemma SetQueueOwnership(s: State, socket: nat, q: seq<Response>)
    requires Ownership(s) && socket in s.owner
    requires forall i :: 0 <= i < |q| ==> q[i].from == s.owner[socket].backend
    ensures Ownership(SetQueue(s, socket, q))
  {
    assert TrafficOwned(SetQueue(s, socket, q));
  }

  lemma LookUpOwnership(s: State, t: nat)
    requires Ownership(s) && t in s.tasks && s.tasks[t].Looking?
    ensures Ownership(LookUpStep(s, t, s.tasks[t].key))
  {
    var k := s.tasks[t].key;
    if k in s.sessions {
      TouchNowOwnership(s, k);
      SetTaskOwnership(TouchNow(s, k), t, Holding(k, s.sessions[k].socket, s.clock));
    } else {
      SetTaskOwnership(s, t, Missed(k));
    }
  }

  lemma InsertOwnership(s: State, t: nat)
    requires Ownership(s) && t in s.tasks && s.tasks[t].Bound?
    ensures Ownership(InsertStep(s, t, s.tasks[t].key, s.tasks[t].socket, s.tasks[t].stamp))
  {
    var k, socket := s.tasks[t].key, s.tasks[t].socket;
    if k in s.sessions {
      var x := Holding(k, s.sessions[k].socket, s.clock);
      TouchNowOwnership(s, k);
      SetTaskOwnership(TouchNow(s, k), t, x);
      AddLostOwnership(SetTask(TouchNow(s, k), t, x), socket);
    } else {
      AddSessionOwnership(s, t);
    }
  }

  lemma SendOwnership(s: State, t: nat, payload: seq<Byte>)
    requires Ownership(s) && t in s.tasks && s.tasks[t].Holding?
    ensures Ownership(SendStep(s, t, s.tasks[t].key, s.tasks[t].socket, s.tasks[t].at, payload))
  {
    SetTaskOwnership(s, t, AfterSend(s.tasks[t].key, s.tasks[t].socket, s.tasks[t].at, payload, s.clock));
  }

  lemma ReceiveOwnership(s: State, t: nat)
    requires Ownership(s) && t in s.tasks && s.tasks[t].Waiting? && Queue(s, s.tasks[t].socket) != []
    ensures Ownership(ReceiveStep(s, t, s.tasks[t].key, s.tasks[t].socket))
  {
    var socket, q := s.tasks[t].socket, Queue(s, s.tasks[t].socket);
    var x := AfterReceive(s.tasks[t].key, socket, q[0]);
    SetTaskOwnership(s, t, x);
    SetQueueOwnership(SetTask(s, t, x), socket, q[1..]);
    SameOwnership(SetQueue(SetTask(s, t, x), socket, q[1..]), ReceiveStep(s, t, s.tasks[t].key, socket));
  }

  lemma BindOwnership(s: State, t: nat, socket: nat)
    requires Ownership(s) && t in s.tasks && s.tasks[t].Missed? && socket !in s.owner
    ensures Ownership(SetTask(AddSocket(s, socket, s.tasks[t].key), t, Bound(s.tasks[t].key, socket, s.clock)))
  {
    AddSocketOwnership(s, socket, s.tasks[t].key);
    SetTaskOwnership(AddSocket(s, socket, s.tasks[t].key), t, Bound(s.tasks[t].key, socket, s.clock));
  }

  lemma PlainTaskOwnership(s: State, t: nat, x: Task)
    requires Ownership(s) && !x.HasSocket()
    ensures Ownership(SetTask(s, t, x))
  {
    hide Ownership;
    SetTaskOwnership(s, t, x);
  }

  lemma GiveUpOwnership(s: State, t: nat)
    requires Ownership(s) && t in s.tasks && s.tasks[t].Waiting?
    ensures Ownership(SetTask(s, t, Done(s.tasks[t].key, s.tasks[t].socket, None)))
  {
    SetTaskOwnership(s, t, Done(s.tasks[t].key, s.tasks[t].socket, None));
  }

  lemma ArriveOwnership(s: State, socket: nat, response: Response)
    requires Ownership(s) && socket in s.owner && response.from == s.owner[socket].backend
    ensures Ownership(ArriveStep(s, socket, response))
  {
    SetQueueOwnership(s, socket, Queue(s, socket) + [response]);
    SameOwnership(SetQueue(s, socket, Queue(s, socket) + [response]), ArriveStep(s, socket, response));
  }

  /** Ownership does not look at the clock, the sweep or the record of deliveries. */
  lemma SameOwnership(s: State, s': State)
    requires Ownership(s)
    requires s' == s.(
      clock := s'.clock, sweep := s'.sweep, swept := s'.swept, arrived := s'.arrived, taken := s'.taken)
    ensures Ownership(s')
  {
  }

  lemma VisitOwnership(s: State, k: Key)
    requires Ownership(s) && s.sweep.Some?
    ensures Ownership(VisitStep(s, k))
  {
    hide Ownership;
    RemoveSessionOwnership(s, k);
    SameOwnership(s, s.(sweep := VisitStep(s, k).sweep));
    SameOwnership(RemoveSession(s, k), RemoveSession(s, k).(sweep := VisitStep(s, k).sweep));
  }

  lemma OwnershipKept(s: State, a: Action)
    requires Ownership(s)
    ensures Ownership(Step(s, a))
  {
    hide Ownership, LookUpStep, InsertStep, SendStep, ReceiveStep, VisitStep, ArriveStep, Queue, TouchNow, SetQueue,
      AddSocket;
    match a {
      case Tick => SameOwnership(s, Step(s, a));
      case Spawn(t, key) => PlainTaskOwnership(s, t, Looking(key));
      case LookUp(t) => if t in s.tasks && s.tasks[t].Looking? { LookUpOwnership(s, t); }
      case BindFails(t) => if t in s.tasks { PlainTaskOwnership(s, t, Failed(s.tasks[t].key)); }
      case Bind(t, socket) =>
        if t in s.tasks && s.tasks[t].Missed? && socket !in s.owner { BindOwnership(s, t, socket); }
      case Insert(t) => if t in s.tasks && s.tasks[t].Bound? { InsertOwnership(s, t); }
      case Touch(key) => TouchNowOwnership(s, key);
      case Send(t, payload) => if t in s.tasks && s.tasks[t].Holding? { SendOwnership(s, t, payload); }
      case SendFails(t) => if t in s.tasks { PlainTaskOwnership(s, t, Failed(s.tasks[t].key)); }
      case Arrive(socket, response) =>
        if socket in s.owner && response.from == s.owner[socket].backend { ArriveOwnership(s, socket, response); }
      case Receive(t) =>
        if t in s.tasks && s.tasks[t].Waiting? && Queue(s, s.tasks[t].socket) != [] { ReceiveOwnership(s, t); }
      case TimeOut(t) => if t in s.tasks && s.tasks[t].Waiting? { GiveUpOwnership(s, t); }
      case ReceiveFails(t) => if t in s.tasks && s.tasks[t].Waiting? { GiveUpOwnership(s, t); }
      case SweepStart => SameOwnership(s, Step(s, a));
      case SweepVisit(key) => if s.sweep.Some? { VisitOwnership(s, key); }
      case SweepEnd => SameOwnership(s, Step(s, a));
    }
  }

  // ----- timing -----

  /** A task's new state holds its lease. */
  ghost predicate Leased(s: State, x: Task) {
    && (x.Bound? ==> x.stamp <= s.clock)
    && (x.Waiting? ==> x.at <= x.since <= s.clock)
    && (x.Holding? || x.Waiting? ==>
          && x.at <= s.clock
          && (s.clock <= x.at + s.timeout ==>
                x.key in s.sessions && s.sessions[x.key].socket == x.socket && x.at <= s.sessions[x.key].lastActivity))
  }

  lemma SetTaskTiming(s: State, t: nat, x: Task)
    requires Timing(s) && Leased(s, x)
    ensures Timing(SetTask(s, t, x))
  {
    var s' := SetTask(s, t, x);
    forall u | u in s'.tasks && (s'.tasks[u].Holding? || s'.tasks[u].Waiting?)
      ensures LeaseHeld(s', u)
    {
      if u != t { assert LeaseHeld(s, u); }
    }
  }

  lemma TouchNowTiming(s: State, k: Key)
    requires Timing(s)
    ensures Timing(TouchNow(s, k))
  {
    var s' := TouchNow(s, k);
    forall u | u in s'.tasks && (s'.tasks[u].Holding? || s'.tasks[u].Waiting?)
      ensures LeaseHeld(s', u)
    {
      assert LeaseHeld(s, u);
    }
  }

  lemma AddSessionTiming(s: State, t: nat)
    requires Timing(s) && t in s.tasks && s.tasks[t].Bound? && s.tasks[t].key !in s.sessions
    ensures Timing(AddSession(s, t, s.tasks[t].key, s.tasks[t].socket, s.tasks[t].stamp))
  {
    var s' := AddSession(s, t, s.tasks[t].key, s.tasks[t].socket, s.tasks[t].stamp);
    forall u | u in s'.tasks && (s'.tasks[u].Holding? || s'.tasks[u].Waiting?)
      ensures LeaseHeld(s', u)
    {
      if u != t { assert LeaseHeld(s, u); }
    }
  }

  lemma TickTiming(s: State)
    requires Timing(s)
    ensures Timing(s.(clock := s.clock + 1))
  {
    var s' := s.(clock := s.clock + 1);
    forall u | u in s'.tasks && (s'.tasks[u].Holding? || s'.tasks[u].Waiting?)
      ensures LeaseHeld(s', u)
    {
      assert LeaseHeld(s, u);
    }
  }

  lemma VisitTiming(s: State, k: Key)
    requires Timing(s) && s.sweep.Some?
    ensures Timing(VisitStep(s, k))
  {
    var s' := VisitStep(s, k);
    forall u | u in s'.tasks && (s'.tasks[u].Holding? || s'.tasks[u].Waiting?)
      ensures LeaseHeld(s', u)
    {
      assert LeaseHeld(s, u);
    }
  }

  lemma SweepEdgeTiming(s: State, s': State)
    requires Timing(s)
    requires s' == s.(sweep := Some(Sweep(s.clock, s.sessions.Keys)))
      || (s.sweep.Some? && s.sweep.value.pending == {} && s' == s.(sweep := None, swept := s.sweep.value.now))
    ensures Timing(s')
  {
    forall u | u in s'.tasks && (s'.tasks[u].Holding? || s'.tasks[u].Waiting?)
      ensures LeaseHeld(s', u)
    {
      assert LeaseHeld(s, u);
    }
  }

  /** Timing does not look at sockets' owners, losers, payloads or responses. */
  lemma SameTiming(s: State, s': State)
    requires Timing(s)
    requires s' == s.(
      owner := s'.owner, lost := s'.lost, sent := s'.sent, inbox := s'.inbox, arrived := s'.arrived, taken := s'.taken)
    ensures Timing(s')
  {
    forall u | u in s'.tasks && (s'.tasks[u].Holding? || s'.tasks[u].Waiting?)
      ensures LeaseHeld(s', u)
    {
      assert LeaseHeld(s, u);
    }
  }

  lemma LookUpTiming(s: State, t: nat)
    requires Timing(s) && t in s.tasks
    ensures Timing(LookUpStep(s, t, s.tasks[t].key))
  {
    var k := s.tasks[t].key;
    TouchNowTiming(s, k);
    if k in s.sessions {
      SetTaskTiming(TouchNow(s, k), t, Holding(k, s.sessions[k].socket, s.clock));
    } else {
      SetTaskTiming(s, t, Missed(k));
    }
  }

  lemma InsertTiming(s: State, t: nat)
    requires Timing(s) && t in s.tasks && s.tasks[t].Bound?
    ensures Timing(InsertStep(s, t, s.tasks[t].key, s.tasks[t].socket, s.tasks[t].stamp))
  {
    var k, socket := s.tasks[t].key, s.tasks[t].socket;
    if k in s.sessions {
      var x := Holding(k, s.sessions[k].socket, s.clock);
      TouchNowTiming(s, k);
      SetTaskTiming(TouchNow(s, k), t, x);
      SameTiming(SetTask(TouchNow(s, k), t, x), AddLost(SetTask(TouchNow(s, k), t, x), socket));
    } else {
      AddSessionTiming(s, t);
    }
  }

  lemma SendTiming(s: State, t: nat, payload: seq<Byte>)
    requires Timing(s) && t in s.tasks && s.tasks[t].Holding?
    ensures Timing(SendStep(s, t, s.tasks[t].key, s.tasks[t].socket, s.tasks[t].at, payload))
  {
    assert LeaseHeld(s, t);
    var x := AfterSend(s.tasks[t].key, s.tasks[t].socket, s.tasks[t].at, payload, s.clock);
    SetTaskTiming(s, t, x);
    SameTiming(SetTask(s, t, x), SendStep(s, t, s.tasks[t].key, s.tasks[t].socket, s.tasks[t].at, payload));
  }

  lemma TimingKept(s: State, a: Action)
    requires Timing(s)
    ensures Timing(Step(s, a))
  {
    hide Timing, LookUpStep, InsertStep, SendStep, VisitStep, TouchNow;
    match a {
      case Tick => TickTiming(s);
      case Spawn(t, key) => SetTaskTiming(s, t, Looking(key));
      case LookUp(t) => if t in s.tasks { LookUpTiming(s, t); }
      case BindFails(t) => if t in s.tasks { SetTaskTiming(s, t, Failed(s.tasks[t].key)); }
      case Bind(t, socket) =>
        if t in s.tasks {
          SameTiming(s, AddSocket(s, socket, s.tasks[t].key));
          SetTaskTiming(AddSocket(s, socket, s.tasks[t].key), t, Bound(s.tasks[t].key, socket, s.clock));
        }
      case Insert(t) => if t in s.tasks && s.tasks[t].Bound? { InsertTiming(s, t); }
      case Touch(key) => TouchNowTiming(s, key);
      case Send(t, payload) => if t in s.tasks && s.tasks[t].Holding? { SendTiming(s, t, payload); }
      case SendFails(t) => if t in s.tasks { SetTaskTiming(s, t, Failed(s.tasks[t].key)); }
      case Arrive(socket, response) => SameTiming(s, ArriveStep(s, socket, response));
      case Receive(t) =>
        if t in s.tasks && s.tasks[t].Waiting? && Queue(s, s.tasks[t].socket) != [] {
          var x := AfterReceive(s.tasks[t].key, s.tasks[t].socket, Queue(s, s.tasks[t].socket)[0]);
          SetTaskTiming(s, t, x);
          SameTiming(SetTask(s, t, x), ReceiveStep(s, t, s.tasks[t].key, s.tasks[t].socket));
        }
      case TimeOut(t) =>
        if t in s.tasks && s.tasks[t].Waiting? { SetTaskTiming(s, t, Done(s.tasks[t].key, s.tasks[t].socket, None)); }
      case ReceiveFails(t) =>
        if t in s.tasks && s.tasks[t].Waiting? { SetTaskTiming(s, t, Done(s.tasks[t].key, s.tasks[t].socket, None)); }
      case SweepStart => SweepEdgeTiming(s, s.(sweep := Some(Sweep(s.clock, s.sessions.Keys))));
      case SweepVisit(key) => if s.sweep.Some? { VisitTiming(s, key); }
      case SweepEnd =>
        if s.sweep.Some? && s.sweep.value.pending == {} {
          SweepEdgeTiming(s, s.(sweep := None, swept := s.sweep.value.now)); }
    }
  }

  /** The invariant holds after every run. */
  lemma {:induction false} Reachable(timeout: nat, actions: seq<Action>)
    ensures Invariant(Run(Start(timeout), actions))
  {
    if actions != [] {
      var init := actions[..|actions| - 1];
      Reachable(timeout, init);
      hide Ownership, Timing, Step;
      OwnershipKept(Run(Start(timeout), init), actions[|actions| - 1]);
      TimingKept(Run(Start(timeout), init), actions[|actions| - 1]);
    }
  }

  // ----- whole runs -----

  lemma {:induction false} RunSplit(s: State, first: seq<Action>, more: seq<Action>)
    ensures Run(s, first + more) == Run(Run(s, first), more)
  {
    if more == [] {
      assert first + more == first;
    } else {
      assert (first + more)[..|first + more| - 1] == first + more[..|more| - 1];
      RunSplit(s, first, more[..|more| - 1]);
    }
  }

  /** Session k is in the table before, during and after the run. */
  ghost predicate NeverRemoved(s: State, actions: seq<Action>, k: Key) {
    forall n :: 0 <= n <= |actions| ==> k in Run(s, actions[..n]).sessions
  }

  lemma NeverRemovedPrefix(s: State, actions: seq<Action>, k: Key)
    requires NeverRemoved(s, actions, k) && actions != []
    ensures NeverRemoved(s, actions[..|actions| - 1], k)
    ensures k in s.sessions && k in Run(s, actions).sessions && k in Run(s, actions[..|actions| - 1]).sessions
  {
    var init := actions[..|actions| - 1];
    assert forall n :: 0 <= n <= |init| ==> init[..n] == actions[..n];
    assert actions[..0] == [] && actions[..|actions|] == actions && actions[..|init|] == init;
    assert Run(s, []) == s;
  }

  lemma SocketStep(s: State, a: Action, k: Key)
    requires k in s.sessions && k in Step(s, a).sessions
    ensures Step(s, a).sessions[k].socket == s.sessions[k].socket
  {
  }

  lemma {:induction false} SocketStable(s: State, actions: seq<Action>, k: Key)
    requires NeverRemoved(s, actions, k)
    ensures k in s.sessions && k in Run(s, actions).sessions
    ensures Run(s, actions).sessions[k].socket == s.sessions[k].socket
  {
    hide Step;
    if actions == [] {
      assert actions[..0] == [];
    } else {
      NeverRemovedPrefix(s, actions, k);
      SocketStable(s, actions[..|actions| - 1], k);
      SocketStep(Run(s, actions[..|actions| - 1]), actions[|actions| - 1], k);
    }
  }

  lemma LookUpResolves(s: State, t: nat, k: Key)
    requires k in s.sessions
    ensures var s' := LookUpStep(s, t, k); k in s'.sessions && s'.tasks[t] == Holding(k, s'.sessions[k].socket, s.clock)
  {
  }

  lemma InsertResolves(s: State, t: nat, k: Key, socket: nat, stamp: nat)
    ensures var s' := InsertStep(s, t, k, socket, stamp);
      k in s'.sessions && s'.tasks[t].Holding? && s'.tasks[t].key == k && s'.tasks[t].socket == s'.sessions[k].socket
  {
  }

  /** What the composite steps do to the tasks. */
  lemma TasksChange(s: State)
    ensures forall t, k ::
      LookUpStep(s, t, k).tasks
      == s.tasks[t := if k in s.sessions then Holding(k, s.sessions[k].socket, s.clock) else Missed(k)]
    ensures forall t, k, socket, stamp ::
      InsertStep(s, t, k, socket, stamp).tasks
      == s.tasks[t := if k in s.sessions then Holding(k, s.sessions[k].socket, s.clock) else Holding(k, socket, stamp)]
    ensures forall t, k, socket, at, payload ::
      SendStep(s, t, k, socket, at, payload).tasks == s.tasks[t := AfterSend(k, socket, at, payload, s.clock)]
    ensures forall t, k, socket :: Queue(s, socket) != [] ==>
      ReceiveStep(s, t, k, socket).tasks == s.tasks[t := AfterReceive(k, socket, Queue(s, socket)[0])]
    ensures forall k :: TouchNow(s, k).tasks == s.tasks
    ensures s.sweep.Some? ==> forall k :: VisitStep(s, k).tasks == s.tasks
    ensures forall k, socket, at, payload, now ::
      var x := AfterSend(k, socket, at, payload, now);
      x.Resolved() && x.key == k && x.socket == socket
    ensures forall k, socket, r ::
      var x := AfterReceive(k, socket, r);
      x.Resolved() && x.key == k && x.socket == socket
  {
  }

  lemma OnlyLookUpsResolve(s: State, a: Action, t: nat)
    requires t in Step(s, a).tasks && Step(s, a).tasks[t].Resolved()
    requires t !in s.tasks || !s.tasks[t].Resolved()
    ensures t in s.tasks
    ensures (a == LookUp(t) && s.tasks[t].Looking? && s.tasks[t].key in s.sessions)
      || (a == Insert(t) && s.tasks[t].Bound?)
  {
    hide LookUpStep, InsertStep, SendStep, ReceiveStep, VisitStep, TouchNow, Queue, AfterSend, AfterReceive;
    TasksChange(s);
  }

  /** A lookup that returns in this step returns the socket that the table holds for its key. */
  lemma ResolveStep(s: State, a: Action, t: nat)
    requires t in Step(s, a).tasks && Step(s, a).tasks[t].Resolved()
    requires t !in s.tasks || !s.tasks[t].Resolved()
    ensures var x := Step(s, a).tasks[t]; x.key in Step(s, a).sessions && Step(s, a).sessions[x.key].socket == x.socket
  {
    OnlyLookUpsResolve(s, a, t);
    hide LookUpStep, InsertStep;
    if a.LookUp? {
      LookUpResolves(s, t, s.tasks[t].key);
    } else {
      InsertResolves(s, t, s.tasks[t].key, s.tasks[t].socket, s.tasks[t].stamp);
    }
  }

  lemma ResolvedStep(s: State, a: Action, t: nat)
    requires t in s.tasks && s.tasks[t].Resolved() && t in Step(s, a).tasks && Step(s, a).tasks[t].Resolved()
    ensures Step(s, a).tasks[t].key == s.tasks[t].key && Step(s, a).tasks[t].socket == s.tasks[t].socket
  {
    hide LookUpStep, InsertStep, SendStep, ReceiveStep, VisitStep, TouchNow, Queue, AfterSend, AfterReceive;
    TasksChange(s);
  }

  lemma {:induction false} LaterLookupAgrees(s: State, actions: seq<Action>, k: Key, u: nat)
    requires NeverRemoved(s, actions, k)
    requires u !in s.tasks || !s.tasks[u].Resolved()
    requires u in Run(s, actions).tasks && Run(s, actions).tasks[u].Resolved() && Run(s, actions).tasks[u].key == k
    ensures k in s.sessions && Run(s, actions).tasks[u].socket == s.sessions[k].socket
  {
    hide Step;
    SocketStable(s, actions, k);
    if actions != [] {
      var init, a := actions[..|actions| - 1], actions[|actions| - 1];
      var mid := Run(s, init);
      NeverRemovedPrefix(s, actions, k);
      if u in mid.tasks && mid.tasks[u].Resolved() {
        ResolvedStep(mid, a, u);
        LaterLookupAgrees(s, init, k, u);
      } else {
        ResolveStep(mid, a, u);
      }
    }
  }

  /**
    All tasks that look up the same client and backend get the same socket, from the step that ends the first lookup
    until the session is removed.
   */
  lemma SameSocket(s: State, a: Action, t: nat, actions: seq<Action>, u: nat)
    requires t in Step(s, a).tasks && Step(s, a).tasks[t].Resolved() && (t !in s.tasks || !s.tasks[t].Resolved())
    requires u !in Step(s, a).tasks || !Step(s, a).tasks[u].Resolved()
    requires NeverRemoved(Step(s, a), actions, Step(s, a).tasks[t].key)
    requires var end := Run(Step(s, a), actions);
      u in end.tasks && end.tasks[u].Resolved() && end.tasks[u].key == Step(s, a).tasks[t].key
    ensures Run(Step(s, a), actions).tasks[u].socket == Step(s, a).tasks[t].socket
  {
    ResolveStep(s, a, t);
    hide Step;
    LaterLookupAgrees(Step(s, a), actions, Step(s, a).tasks[t].key, u);
  }

  lemma HistoryGrows(s: State, a: Action)
    ensures s.lost <= Step(s, a).lost
    ensures forall x :: x in s.owner ==> x in Step(s, a).owner && Step(s, a).owner[x] == s.owner[x]
  {
  }

  lemma {:induction false} HistoryKept(s: State, actions: seq<Action>)
    ensures s.lost <= Run(s, actions).lost
    ensures forall x :: x in s.owner ==> x in Run(s, actions).owner && Run(s, actions).owner[x] == s.owner[x]
  {
    hide Step;
    if actions != [] {
      HistoryKept(s, actions[..|actions| - 1]);
      HistoryGrows(Run(s, actions[..|actions| - 1]), actions[|actions| - 1]);
    }
  }

  /**
    One key per socket, for ever: once bound for a key a socket serves only that key, in the table and in tasks,
    through any later evictions; and the socket of a task that lost the race is never handed out.
   */
  lemma SocketsServeOneKey(timeout: nat, first: seq<Action>, more: seq<Action>, x: nat)
    requires x in Run(Start(timeout), first).owner
    ensures var key, end := Run(Start(timeout), first).owner[x], Run(Start(timeout), first + more);
      && (forall k :: k in end.sessions && end.sessions[k].socket == x ==> k == key)
      && (forall t :: t in end.tasks && end.tasks[t].HasSocket() && end.tasks[t].socket == x ==>
            end.tasks[t].key == key)
      && (x in Run(Start(timeout), first).lost ==>
            (forall k :: k in end.sessions ==> end.sessions[k].socket != x)
            && (forall t :: t in end.tasks && end.tasks[t].HasSocket() ==> end.tasks[t].socket != x))
  {
    hide Step;
    RunSplit(Start(timeout), first, more);
    HistoryKept(Run(Start(timeout), first), more);
    Reachable(timeout, first + more);
  }

  /** A session leaves the table only when a sweep visits it and finds it idle for more than the timeout. */
  lemma OnlyIdleEvicted(s: State, a: Action, k: Key)
    requires Invariant(s) && k in s.sessions && k !in Step(s, a).sessions
    ensures a == SweepVisit(k) && s.sweep.Some?
    ensures s.sessions[k].lastActivity + s.timeout < s.sweep.value.now <= s.clock
  {
    assert TimesSane(s);
    hide Invariant, Ownership, Timing;
    RemovedBySweep(s, a, k);
  }

  lemma RemovedBySweep(s: State, a: Action, k: Key)
    requires k in s.sessions && k !in Step(s, a).sessions
    ensures a == SweepVisit(k) && s.sweep.Some? && Expired(s.sessions[k], s.sweep.value.now, s.timeout)
  {
  }

  /** The same sweep is in progress before, during and after the run. */
  ghost predicate Sweeping(s: State, actions: seq<Action>, now: nat) {
    forall n :: 0 <= n <= |actions| ==> Run(s, actions[..n]).sweep.Some? && Run(s, actions[..n]).sweep.value.now == now
  }

  ghost predicate RecentAt(s: State, k: Key, now: nat) {
    k in s.sessions && now <= s.sessions[k].lastActivity + s.timeout
  }

  lemma RecentStep(s: State, a: Action, k: Key)
    requires TimesSane(s) && s.sweep.Some? && RecentAt(s, k, s.sweep.value.now)
    ensures RecentAt(Step(s, a), k, s.sweep.value.now)
  {
    hide AfterSend, AfterReceive, Queue;
  }

  /** A session used within the timeout of the sweep's start, even while the sweep runs, survives the whole sweep. */
  lemma {:induction false} RecentSurvives(s: State, actions: seq<Action>, k: Key, now: nat)
    requires Invariant(s) && Sweeping(s, actions, now) && RecentAt(s, k, now)
    ensures Invariant(Run(s, actions)) && RecentAt(Run(s, actions), k, now)
  {
    if actions != [] {
      var init, a := actions[..|actions| - 1], actions[|actions| - 1];
      assert forall n :: 0 <= n <= |init| ==> init[..n] == actions[..n];
      assert actions[..|init|] == init;
      RecentSurvives(s, init, k, now);
      var mid := Run(s, init);
      OwnershipKept(mid, a);
      TimingKept(mid, a);
      assert TimesSane(mid);
      hide Step, Ownership, Timing, TimesSane, RecentAt;
      RecentStep(mid, a, k);
    }
  }

  /**
    When no more than d has passed since the last completed sweep started, no session in the table has been unused for
    more than the timeout and d. With sweeps on time, d is half the timeout; a late one makes it longer.
   */
  lemma IdleBounded(timeout: nat, actions: seq<Action>, k: Key, d: nat)
    requires var end := Run(Start(timeout), actions); k in end.sessions && end.clock <= end.swept + d
    ensures var end := Run(Start(timeout), actions);
      k in end.touched && end.clock <= end.touched[k] + timeout + d
  {
    Reachable(timeout, actions);
    TimeoutFixed(timeout, actions);
  }

  lemma {:induction false} TimeoutFixed(timeout: nat, actions: seq<Action>)
    ensures Run(Start(timeout), actions).timeout == timeout
  {
    if actions != [] {
      TimeoutFixed(timeout, actions[..|actions| - 1]);
      TimeoutStep(Run(Start(timeout), actions[..|actions| - 1]), actions[|actions| - 1]);
    }
  }

  lemma TimeoutStep(s: State, a: Action)
    ensures Step(s, a).timeout == s.timeout
  {
  }

  /** Task t waits for its response: it sent `delay` after the use its lookup recorded, `waited` ago. */
  ghost predicate WaitingFor(s: State, t: nat, delay: nat, waited: nat) {
    t in s.tasks && s.tasks[t].Waiting?
    && s.tasks[t].since == s.tasks[t].at + delay && s.clock == s.tasks[t].since + waited
  }

  ghost predicate SessionInPlace(s: State, t: nat)
    requires t in s.tasks && s.tasks[t].Waiting?
  {
    s.tasks[t].key in s.sessions && s.sessions[s.tasks[t].key].socket == s.tasks[t].socket
  }

  /** In every run a task that has waited so long after so long a delay still finds its session in the table. */
  ghost predicate WaitProtected(timeout: nat, delay: nat, waited: nat) {
    forall actions, t :: WaitingFor(Run(Start(timeout), actions), t, delay, waited) ==>
      SessionInPlace(Run(Start(timeout), actions), t)
  }

  lemma InPlaceWhileWaiting(timeout: nat, actions: seq<Action>, t: nat, delay: nat, waited: nat)
    requires WaitingFor(Run(Start(timeout), actions), t, delay, waited) && delay + waited <= timeout
    ensures SessionInPlace(Run(Start(timeout), actions), t)
  {
    Reachable(timeout, actions);
    TimeoutFixed(timeout, actions);
    assert LeaseHeld(Run(Start(timeout), actions), t);
  }

  function Ticks(n: nat): seq<Action> {
    seq(n, _ => Tick)
  }

  lemma {:induction false} TicksPass(s: State, n: nat)
    ensures Run(s, Ticks(n)) == s.(clock := s.clock + n)
  {
    if n > 0 {
      TicksPass(s, n - 1);
      assert Ticks(n)[..n - 1] == Ticks(n - 1);
    }
  }

  lemma RunOne(s: State, a: Action)
    ensures Run(s, [a]) == Step(s, a)
  {
    assert [a][..0] == [];
  }

  /** A first packet is looked up, and its session inserted, at time zero. */
  lemma FirstSession(timeout: nat, k: Key) returns (actions: seq<Action>)
    ensures var s := Run(Start(timeout), actions);
      && s.clock == 0 && s.timeout == timeout && s.sweep.None?
      && s.tasks == map[0 := Holding(k, 0, 0)] && s.sessions == map[k := Session(k.backend, 0, 0)]
  {
    var s0 := Start(timeout);
    var s1 := Step(s0, Spawn(0, k));
    var s2 := Step(s1, LookUp(0));
    var s3 := Step(s2, Bind(0, 0));
    actions := [Spawn(0, k)] + [LookUp(0)] + [Bind(0, 0)] + [Insert(0)];
    hide Step, Run;
    RunSplit(s0, [Spawn(0, k)], [LookUp(0)]);
    RunSplit(s0, [Spawn(0, k)] + [LookUp(0)], [Bind(0, 0)]);
    RunSplit(s0, [Spawn(0, k)] + [LookUp(0)] + [Bind(0, 0)], [Insert(0)]);
    RunOne(s0, Spawn(0, k));
    RunOne(s1, LookUp(0));
    RunOne(s2, Bind(0, 0));
    RunOne(s3, Insert(0));
  }

  lemma SendsOff(s: State, k: Key)
    requires s.tasks == map[0 := Holding(k, 0, 0)]
    ensures Step(s, Send(0, [0])) == s.(
      tasks := map[0 := Waiting(k, 0, 0, s.clock)], sent := s.sent + [Sending(0, k, [0])])
  {
  }

  /** The task sends `delay` later and waits; nobody uses the session meanwhile. */
  lemma IdleWait(s: State, k: Key, delay: nat, waited: nat) returns (actions: seq<Action>)
    requires s.clock == 0 && s.tasks == map[0 := Holding(k, 0, 0)]
    ensures var end := Run(s, actions);
      && end.clock == delay + waited && end.timeout == s.timeout && end.sweep == s.sweep
      && end.sessions == s.sessions && end.tasks == map[0 := Waiting(k, 0, 0, delay)]
  {
    hide Step, Run, Ticks;
    var later := s.(clock := s.clock + delay);
    var sent := Step(later, Send(0, [0]));
    actions := Ticks(delay) + [Send(0, [0])] + Ticks(waited);
    SendsOff(later, k);
    RunSplit(s, Ticks(delay), [Send(0, [0])]);
    RunSplit(s, Ticks(delay) + [Send(0, [0])], Ticks(waited));
    TicksPass(s, delay);
    RunOne(later, Send(0, [0]));
    TicksPass(sent, waited);
  }

  /** A sweep that visits one expired session. */
  lemma SweepEvicts(s: State, k: Key)
    requires s.sweep.None? && k in s.sessions && Expired(s.sessions[k], s.clock, s.timeout)
    ensures var end := Run(s, [SweepStart] + [SweepVisit(k)]);
      end.clock == s.clock && end.tasks == s.tasks && k !in end.sessions
  {
    RunSplit(s, [SweepStart], [SweepVisit(k)]);
    RunOne(s, SweepStart);
    RunOne(Step(s, SweepStart), SweepVisit(k));
  }

  /** Past the protected part of the wait there is a run in which the session goes while its task waits. */
  lemma EvictedWhileWaiting(timeout: nat, k: Key, delay: nat, waited: nat) returns (actions: seq<Action>)
    requires timeout < delay + waited
    ensures WaitingFor(Run(Start(timeout), actions), 0, delay, waited)
    ensures !SessionInPlace(Run(Start(timeout), actions), 0)
  {
    hide Step, Run;
    var first := FirstSession(timeout, k);
    var s := Run(Start(timeout), first);
    var wait := IdleWait(s, k, delay, waited);
    SweepEvicts(Run(s, wait), k);
    RunSplit(Start(timeout), first, wait);
    RunSplit(Start(timeout), first + wait, [SweepStart] + [SweepVisit(k)]);
    actions := first + wait + ([SweepStart] + [SweepVisit(k)]);
  }

  /**
    Which part of a wait is protected, exactly: the session is sure to be in place as long as the delay between the
    lookup and the send and the time waited since make up no more than the timeout. As the wait for a response is as
    long as the session timeout, the whole wait is protected if and only if the send follows its lookup at once.
   */
  lemma WaitProtectedExactly(timeout: nat, k: Key, delay: nat, waited: nat)
    ensures WaitProtected(timeout, delay, waited) <==> delay + waited <= timeout
    ensures (forall w: nat :: w <= timeout ==> WaitProtected(timeout, delay, w)) <==> delay == 0
  {
    hide SessionInPlace, Run, Start;
    forall w: nat
      ensures WaitProtected(timeout, delay, w) <==> delay + w <= timeout
    {
      if delay + w <= timeout {
        forall actions, t | WaitingFor(Run(Start(timeout), actions), t, delay, w)
          ensures SessionInPlace(Run(Start(timeout), actions), t)
        {
          InPlaceWhileWaiting(timeout, actions, t, delay, w);
        }
      } else {
        var actions := EvictedWhileWaiting(timeout, k, delay, w);
      }
    }
    assert delay == 0 <==> WaitProtected(timeout, delay, timeout);
  }

  /** The table after a sweep that started at `now` has visited the given sessions. */
  ghost function AfterVisits(m: Table, keys: seq<Key>, now: nat, timeout: nat): Table {
    map k | k in m && !(k in keys && Expired(m[k], now, timeout)) :: m[k]
  }

  ghost function Visits(keys: seq<Key>): seq<Action> {
    if keys == [] then [] else Visits(keys[..|keys| - 1]) + [SweepVisit(keys[|keys| - 1])]
  }

  lemma VisitOne(s: State, m: Table, keys: seq<Key>, k: Key)
    requires s.sweep.Some? && s.sessions == AfterVisits(m, keys, s.sweep.value.now, s.timeout)
    ensures VisitStep(s, k).sessions == AfterVisits(m, keys + [k], s.sweep.value.now, s.timeout)
  {
  }

  lemma {:induction false} VisitsRemove(s: State, keys: seq<Key>)
    requires s.sweep.Some?
    ensures var end := Run(s, Visits(keys));
      && end.sweep.Some? && end.sweep.value.now == s.sweep.value.now && end.timeout == s.timeout
      && end.sessions == AfterVisits(s.sessions, keys, s.sweep.value.now, s.timeout)
  {
    if keys != [] {
      var init, k := keys[..|keys| - 1], keys[|keys| - 1];
      VisitsRemove(s, init);
      var mid := Run(s, Visits(init));
      VisitOne(mid, s.sessions, init, k);
      assert init + [k] == keys;
      assert Visits(keys)[..|Visits(init)|] == Visits(init);
      assert Run(s, Visits(keys)) == Step(mid, SweepVisit(k));
      hide AfterVisits, Run, Visits;
    }
  }

  /** A sweep that is not interrupted and visits every session has the effect of the table's own sweep. */
  lemma VisitsSweep(s: State, keys: seq<Key>)
    requires s.sweep.Some? && forall k :: k in s.sessions ==> k in keys
    ensures Run(s, Visits(keys)).sessions == Swept(s.sessions, s.sweep.value.now, s.timeout)
  {
    VisitsRemove(s, keys);
  }
}
