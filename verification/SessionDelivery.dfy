/**
  Where responses come from: every datagram that a task returns arrived on that task's own socket, and no datagram is
  handed out twice.
 */
module SessionDelivery {
  import opened Net
  import opened Sessions
  import opened SessionProtocol

  /** What arrived on one socket, in order. */
  function On(arrivals: seq<Arrival>, socket: nat): seq<Response> {
    if arrivals == [] then []
    else
      var last := arrivals[|arrivals| - 1];
      On(arrivals[..|arrivals| - 1], socket) + if last.socket == socket then [last.response] else []
  }

  function Arrivals(taken: seq<Taking>): (r: seq<Arrival>)
    ensures |r| == |taken|
  {
    seq(|taken|, i requires 0 <= i < |taken| => taken[i].arrival)
  }

  /** On every socket: what has arrived is what was taken off, in order, and then what is queued. */
  ghost predicate QueuesBalanced(s: State) {
    forall socket: nat :: On(s.arrived, socket) == On(Arrivals(s.taken), socket) + Queue(s, socket)
  }

  /** A datagram taken off went to a task that is done, from its own socket, and is what the task returns. */
  ghost predicate TakenByOwner(tasks: map<nat, Task>, x: Taking) {
    && x.t in tasks && tasks[x.t].Done? && tasks[x.t].socket == x.arrival.socket
    && tasks[x.t].response == if x.arrival.response.bytes == [] then None else Some(x.arrival.response)
  }

  /** Every datagram taken off went to its own task, and every response returned was taken off. */
  ghost predicate TakenOnce(s: State) {
    && (forall i :: 0 <= i < |s.taken| ==> TakenByOwner(s.tasks, s.taken[i]))
    && (forall i, j :: 0 <= i < j < |s.taken| ==> s.taken[i].t != s.taken[j].t)
    && (forall t :: t in s.tasks && s.tasks[t].Done? && s.tasks[t].response.Some? ==>
          Taking(t, Arrival(s.tasks[t].socket, s.tasks[t].response.value)) in s.taken)
  }

  ghost predicate Delivered(s: State) {
    QueuesBalanced(s) && TakenOnce(s)
  }

  lemma OnMore(arrivals: seq<Arrival>, x: Arrival, socket: nat)
    ensures On(arrivals + [x], socket) == On(arrivals, socket) + if x.socket == socket then [x.response] else []
  {
    assert (arrivals + [x])[..|arrivals|] == arrivals;
  }

  lemma ArriveBalanced(s: State, socket: nat, response: Response)
    requires QueuesBalanced(s)
    ensures QueuesBalanced(ArriveStep(s, socket, response))
  {
    hide On, Arrivals;
    var s' := ArriveStep(s, socket, response);
    forall other: nat
      ensures On(s'.arrived, other) == On(Arrivals(s'.taken), other) + Queue(s', other)
    {
      OnMore(s.arrived, Arrival(socket, response), other);
    }
  }

  lemma ArriveDelivered(s: State, socket: nat, response: Response)
    requires Delivered(s)
    ensures Delivered(ArriveStep(s, socket, response))
  {
    hide QueuesBalanced;
    ArriveBalanced(s, socket, response);
  }

  lemma TakenMore(taken: seq<Taking>, x: Taking)
    ensures Arrivals(taken + [x]) == Arrivals(taken) + [x.arrival]
  {
  }

  lemma HeadMoves(taken: seq<Response>, queue: seq<Response>)
    requires queue != []
    ensures taken + queue == taken + [queue[0]] + queue[1..]
  {
  }

  lemma ReceiveBalanced(s: State, t: nat, k: Key, socket: nat)
    requires QueuesBalanced(s) && Queue(s, socket) != []
    ensures QueuesBalanced(ReceiveStep(s, t, k, socket))
  {
    hide On, Arrivals, AfterReceive;
    var s', head := ReceiveStep(s, t, k, socket), Arrival(socket, Queue(s, socket)[0]);
    TakenMore(s.taken, Taking(t, head));
    forall other: nat
      ensures On(s'.arrived, other) == On(Arrivals(s'.taken), other) + Queue(s', other)
    {
      OnMore(Arrivals(s.taken), head, other);
      HeadMoves(On(Arrivals(s.taken), socket), Queue(s, socket));
    }
  }

  lemma ReceiveTakenOnce(s: State, t: nat)
    requires TakenOnce(s) && t in s.tasks && s.tasks[t].Waiting? && Queue(s, s.tasks[t].socket) != []
    ensures TakenOnce(ReceiveStep(s, t, s.tasks[t].key, s.tasks[t].socket))
  {
    var s' := ReceiveStep(s, t, s.tasks[t].key, s.tasks[t].socket);
    var last := |s.taken|;
    forall i | 0 <= i < |s'.taken|
      ensures TakenByOwner(s'.tasks, s'.taken[i])
      ensures i < last ==> s'.taken[i].t != t
    {
      if i < last { assert TakenByOwner(s.tasks, s.taken[i]); }
    }
    forall u | u in s'.tasks && s'.tasks[u].Done? && s'.tasks[u].response.Some?
      ensures Taking(u, Arrival(s'.tasks[u].socket, s'.tasks[u].response.value)) in s'.taken
    {
      if u == t { assert s'.taken[last] in s'.taken; }
    }
  }

  /** A step that takes nothing off and puts nothing in leaves finished tasks alone and gives none a response. */
  ghost predicate Idle(s: State, s': State) {
    && s'.arrived == s.arrived && s'.taken == s.taken && s'.inbox == s.inbox
    && (forall t :: t in s.tasks && s.tasks[t].Done? ==> t in s'.tasks && s'.tasks[t] == s.tasks[t])
    && (forall t :: t in s'.tasks && s'.tasks[t].Done? && s'.tasks[t].response.Some? ==>
          t in s.tasks && s.tasks[t] == s'.tasks[t])
  }

  lemma IdleDelivered(s: State, s': State)
    requires Delivered(s) && Idle(s, s')
    ensures Delivered(s')
  {
    forall i | 0 <= i < |s'.taken|
      ensures TakenByOwner(s'.tasks, s'.taken[i])
    {
      assert TakenByOwner(s.tasks, s.taken[i]);
    }
  }

  lemma SetTaskIdle(s: State, t: nat, x: Task)
    requires t in s.tasks ==> !s.tasks[t].Done?
    requires x.Done? ==> x.response.None?
    ensures Idle(s, SetTask(s, t, x))
  {
  }

  lemma TouchIdle(s: State, k: Key)
    ensures Idle(s, TouchNow(s, k))
  {
  }

  lemma LookUpIdle(s: State, t: nat, k: Key)
    requires t in s.tasks && !s.tasks[t].Done?
    ensures Idle(s, LookUpStep(s, t, k))
  {
    hide Touched;
  }

  lemma InsertIdle(s: State, t: nat, k: Key, socket: nat, stamp: nat)
    requires t in s.tasks && !s.tasks[t].Done?
    ensures Idle(s, InsertStep(s, t, k, socket, stamp))
  {
    hide Touched, InsertedIfAbsent;
  }

  lemma SendIdle(s: State, t: nat, k: Key, socket: nat, at: nat, payload: seq<Byte>)
    requires t in s.tasks && !s.tasks[t].Done?
    ensures Idle(s, SendStep(s, t, k, socket, at, payload))
  {
  }

  lemma VisitIdle(s: State, k: Key)
    requires s.sweep.Some?
    ensures Idle(s, VisitStep(s, k))
  {
    hide Expired;
  }

  lemma BindIdle(s: State, t: nat, socket: nat, k: Key, x: Task)
    requires t in s.tasks && !s.tasks[t].Done? && !x.Done?
    ensures Idle(s, SetTask(AddSocket(s, socket, k), t, x))
  {
  }

  lemma SameIdle(s: State, s': State)
    requires s' == s.(clock := s'.clock, sweep := s'.sweep, swept := s'.swept)
    ensures Idle(s, s')
  {
  }

  lemma OtherStepsIdle(s: State, a: Action)
    requires !a.Arrive? && !a.Receive?
    ensures Idle(s, Step(s, a))
  {
    hide Idle, LookUpStep, InsertStep, SendStep, VisitStep, TouchNow, SetTask, AddSocket;
    SameIdle(s, s);
    match a {
      case Tick => SameIdle(s, Step(s, a));
      case Spawn(t, key) => if t !in s.tasks { SetTaskIdle(s, t, Looking(key)); }
      case LookUp(t) => if t in s.tasks && s.tasks[t].Looking? { LookUpIdle(s, t, s.tasks[t].key); }
      case BindFails(t) => if t in s.tasks && s.tasks[t].Missed? { SetTaskIdle(s, t, Failed(s.tasks[t].key)); }
      case Bind(t, socket) =>
        if t in s.tasks && s.tasks[t].Missed? {
          BindIdle(s, t, socket, s.tasks[t].key, Bound(s.tasks[t].key, socket, s.clock));
        }
      case Insert(t) =>
        if t in s.tasks && s.tasks[t].Bound? { InsertIdle(s, t, s.tasks[t].key, s.tasks[t].socket, s.tasks[t].stamp); }
      case Touch(key) => TouchIdle(s, key);
      case Send(t, payload) =>
        if t in s.tasks && s.tasks[t].Holding? {
          SendIdle(s, t, s.tasks[t].key, s.tasks[t].socket, s.tasks[t].at, payload);
        }
      case SendFails(t) => if t in s.tasks && s.tasks[t].Holding? { SetTaskIdle(s, t, Failed(s.tasks[t].key)); }
      case TimeOut(t) => GiveUpIdle(s, t);
      case ReceiveFails(t) => GiveUpIdle(s, t);
      case SweepStart => SameIdle(s, Step(s, a));
      case SweepVisit(key) => if s.sweep.Some? { VisitIdle(s, key); }
      case SweepEnd => SameIdle(s, Step(s, a));
    }
  }

  lemma GiveUpIdle(s: State, t: nat)
    ensures t in s.tasks && s.tasks[t].Waiting? ==>
      Idle(s, SetTask(s, t, Done(s.tasks[t].key, s.tasks[t].socket, None)))
  {
    if t in s.tasks && s.tasks[t].Waiting? { SetTaskIdle(s, t, Done(s.tasks[t].key, s.tasks[t].socket, None)); }
  }

  lemma DeliveredKept(s: State, a: Action)
    requires Delivered(s)
    ensures Delivered(Step(s, a))
  {
    hide Delivered, ArriveStep, ReceiveStep, Idle;
    match a {
      case Arrive(socket, response) => ArriveDelivered(s, socket, response);
      case Receive(t) =>
        if t in s.tasks && s.tasks[t].Waiting? && Queue(s, s.tasks[t].socket) != [] { ReceiveDelivered(s, t); }
      case _ =>
        OtherStepsIdle(s, a);
        IdleDelivered(s, Step(s, a));
    }
  }

  lemma ReceiveDelivered(s: State, t: nat)
    requires Delivered(s) && t in s.tasks && s.tasks[t].Waiting? && Queue(s, s.tasks[t].socket) != []
    ensures Delivered(ReceiveStep(s, t, s.tasks[t].key, s.tasks[t].socket))
  {
    hide QueuesBalanced, TakenOnce, ReceiveStep;
    ReceiveBalanced(s, t, s.tasks[t].key, s.tasks[t].socket);
    ReceiveTakenOnce(s, t);
  }

  /**
    Deliveries balance after every run: on every socket the datagrams that arrived are those taken off, in order, and
    then those still queued; each one taken off was returned by one task of that socket, and each response returned was
    taken off.
   */
  lemma {:induction false} DeliveriesBalance(timeout: nat, actions: seq<Action>)
    ensures Delivered(Run(Start(timeout), actions))
  {
    if actions != [] {
      hide Delivered, Step;
      DeliveriesBalance(timeout, actions[..|actions| - 1]);
      DeliveredKept(Run(Start(timeout), actions[..|actions| - 1]), actions[|actions| - 1]);
    }
  }

  // ----- what tasks return -----

  /** Where arrival i comes among those on its socket. */
  function Place(arrivals: seq<Arrival>, i: nat): nat
    requires i < |arrivals|
  {
    |On(arrivals[..i], arrivals[i].socket)|
  }

  lemma {:induction false} OnGrows(arrivals: seq<Arrival>, i: nat, j: nat, socket: nat)
    requires i <= j <= |arrivals|
    ensures On(arrivals[..i], socket) <= On(arrivals[..j], socket)
  {
    if i < j {
      OnGrows(arrivals, i, j - 1, socket);
      assert arrivals[..j] == arrivals[..j - 1] + [arrivals[j - 1]];
      OnMore(arrivals[..j - 1], arrivals[j - 1], socket);
    }
  }

  /** Arrival i is found at its place, and later ones on the same socket have later places. */
  lemma PlaceExact(arrivals: seq<Arrival>, i: nat)
    requires i < |arrivals|
    ensures Place(arrivals, i) < |On(arrivals, arrivals[i].socket)|
    ensures On(arrivals, arrivals[i].socket)[Place(arrivals, i)] == arrivals[i].response
    ensures forall j :: i < j < |arrivals| && arrivals[j].socket == arrivals[i].socket ==>
      Place(arrivals, i) < Place(arrivals, j)
  {
    var socket := arrivals[i].socket;
    assert arrivals[..i + 1] == arrivals[..i] + [arrivals[i]] && arrivals[..|arrivals|] == arrivals;
    OnMore(arrivals[..i], arrivals[i], socket);
    OnGrows(arrivals, i + 1, |arrivals|, socket);
    forall j | i < j < |arrivals| && arrivals[j].socket == socket
      ensures Place(arrivals, i) < Place(arrivals, j)
    {
      OnGrows(arrivals, i + 1, j, socket);
    }
  }

  lemma {:induction false} OnArrived(arrivals: seq<Arrival>, socket: nat, r: Response)
    requires r in On(arrivals, socket)
    ensures Arrival(socket, r) in arrivals
  {
    if arrivals != [] {
      var last := arrivals[|arrivals| - 1];
      if !(last.socket == socket && last.response == r) { OnArrived(arrivals[..|arrivals| - 1], socket, r); }
    }
  }

  /** The arrival, by its place on the task's socket, that a finished task returned. */
  lemma ReturnedArrival(s: State, t: nat) returns (i: nat, place: nat)
    requires Delivered(s) && t in s.tasks && s.tasks[t].Done? && s.tasks[t].response.Some?
    ensures i < |s.taken| && s.taken[i].t == t
    ensures s.taken[i].arrival == Arrival(s.tasks[t].socket, s.tasks[t].response.value)
    ensures place == Place(Arrivals(s.taken), i)
    ensures place < |On(s.arrived, s.tasks[t].socket)|
    ensures On(s.arrived, s.tasks[t].socket)[place] == s.tasks[t].response.value
  {
    var x, socket := s.tasks[t], s.tasks[t].socket;
    i :| 0 <= i < |s.taken| && s.taken[i] == Taking(t, Arrival(socket, x.response.value));
    assert Arrivals(s.taken)[i] == s.taken[i].arrival;
    PlaceExact(Arrivals(s.taken), i);
    place := Place(Arrivals(s.taken), i);
    assert On(s.arrived, socket) == On(Arrivals(s.taken), socket) + Queue(s, socket);
  }

  /**
    No response crosses clients: what a task returns arrived on the task's own socket, the socket of its own client and
    backend, from that backend; and only that client's payloads for that backend were ever sent on that socket.
   */
  lemma ResponsesStayHome(timeout: nat, actions: seq<Action>, t: nat)
    requires var end := Run(Start(timeout), actions);
      t in end.tasks && end.tasks[t].Done? && end.tasks[t].response.Some?
    ensures var end := Run(Start(timeout), actions);
      var x := end.tasks[t];
      && Arrival(x.socket, x.response.value) in end.arrived
      && x.socket in end.owner && end.owner[x.socket] == x.key
      && x.response.value.from == x.key.backend
      && (forall i :: 0 <= i < |end.sent| && end.sent[i].socket == x.socket ==> end.sent[i].key == x.key)
  {
    Reachable(timeout, actions);
    DeliveriesBalance(timeout, actions);
    var end := Run(Start(timeout), actions);
    hide Run, Delivered, Timing;
    var i, place := ReturnedArrival(end, t);
    OnArrived(end.arrived, end.tasks[t].socket, end.tasks[t].response.value);
  }

  /** No datagram is returned twice: what two tasks return on one socket arrived there at two different places. */
  lemma ResponsesAreDistinct(timeout: nat, actions: seq<Action>, t: nat, u: nat) returns (p: nat, q: nat)
    requires var end := Run(Start(timeout), actions);
      && t in end.tasks && end.tasks[t].Done? && end.tasks[t].response.Some?
      && u in end.tasks && end.tasks[u].Done? && end.tasks[u].response.Some?
      && t != u && end.tasks[t].socket == end.tasks[u].socket
    ensures var end := Run(Start(timeout), actions);
      var arrived := On(end.arrived, end.tasks[t].socket);
      && p < |arrived| && q < |arrived| && p != q
      && arrived[p] == end.tasks[t].response.value && arrived[q] == end.tasks[u].response.value
  {
    DeliveriesBalance(timeout, actions);
    var end := Run(Start(timeout), actions);
    hide Run, Delivered, Place, On;
    var i, j: nat;
    i, p := ReturnedArrival(end, t);
    j, q := ReturnedArrival(end, u);
    assert Arrivals(end.taken)[i] == end.taken[i].arrival && Arrivals(end.taken)[j] == end.taken[j].arrival;
    PlaceExact(Arrivals(end.taken), i);
    PlaceExact(Arrivals(end.taken), j);
  }
}
