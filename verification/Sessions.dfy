/** The table of client sessions: one socket per client and backend, with the time of its last use. */
module Sessions {
  import opened Net

  datatype Key = Key(client: SocketAddr, backend: SocketAddr)

  /** Sockets are identities; times count from some origin. */
  datatype Session = Session(backend: SocketAddr, socket: nat, lastActivity: nat)

  type Table = map<Key, Session>

  function Touched(m: Table, k: Key, now: nat): Table {
    if k in m then m[k := m[k].(lastActivity := now)] else m
  }

  /** Insert-if-absent: an existing session wins and is touched. */
  function InsertedIfAbsent(m: Table, k: Key, created: Session, now: nat): Table {
    if k in m then Touched(m, k, now) else m[k := created]
  }

  /** `duration_since` saturates at zero, so a use after `now` never counts as idle. */
  predicate Expired(s: Session, now: nat, timeout: nat) {
    s.lastActivity + timeout < now
  }

  ghost function ExpiredKeys(m: Table, now: nat, timeout: nat): set<Key> {
    set k | k in m && Expired(m[k], now, timeout)
  }

  function Swept(m: Table, now: nat, timeout: nat): Table {
    map k | k in m && !Expired(m[k], now, timeout) :: m[k]
  }

  /** The tables agree on every other session, and on the socket and the backend of this one if both have it. */
  ghost predicate SameBut(before: Table, after: Table, k: Key) {
    && (forall j :: j != k ==> (j in before <==> j in after) && (j in before ==> after[j] == before[j]))
    && (k in before ==> k in after && after[k] == before[k].(lastActivity := after[k].lastActivity))
  }

  class SessionManager {
    var sessions: Table
    const timeout: nat

    constructor (timeout: nat)
      ensures sessions == map[] && this.timeout == timeout
    {
      sessions := map[];
      this.timeout := timeout;
    }

    /** The fast path of a lookup: touch the session and return its socket. */
    method Get(k: Key, now: nat) returns (r: Option<nat>)
      modifies this
      ensures sessions == Touched(old(sessions), k, now)
      ensures r == if k in old(sessions) then Some(old(sessions)[k].socket) else None
      ensures k in sessions <==> k in old(sessions)
      ensures k in sessions ==> sessions[k].lastActivity == now
      ensures SameBut(old(sessions), sessions, k)
    {
      if k in sessions {
        sessions := sessions[k := sessions[k].(lastActivity := now)];
        return Some(sessions[k].socket);
      }
      return None;
    }

    /** The entry step after binding: the first task to arrive inserts, every later one uses what is there. */
    method Insert(k: Key, socket: nat, stamp: nat, now: nat) returns (r: nat)
      modifies this
      ensures sessions == InsertedIfAbsent(old(sessions), k, Session(k.backend, socket, stamp), now)
      ensures k in sessions && r == sessions[k].socket
      ensures r == if k in old(sessions) then old(sessions)[k].socket else socket
      ensures sessions[k].lastActivity == if k in old(sessions) then now else stamp
      ensures sessions.Keys == old(sessions).Keys + {k} && SameBut(old(sessions), sessions, k)
    {
      if k in sessions {
        sessions := sessions[k := sessions[k].(lastActivity := now)];
        r := sessions[k].socket;
      } else {
        sessions := sessions[k := Session(k.backend, socket, stamp)];
        r := socket;
      }
    }

    /** The whole lookup when nothing else runs in between; binding may fail. */
    method GetOrCreateSession(client: SocketAddr, backend: SocketAddr, bound: Option<nat>, now: nat)
      returns (r: Option<nat>)
      modifies this
      ensures var k := Key(client, backend);
        && (k in old(sessions) ==> r == Some(old(sessions)[k].socket))
        && (k !in old(sessions) ==> r == bound)
        && (r.Some? ==> k in sessions && sessions[k].socket == r.value && sessions[k].lastActivity == now)
        && (r.None? ==> sessions == old(sessions))
        && (forall j :: j != k ==>
            (j in sessions <==> j in old(sessions)) && (j in sessions ==> sessions[j] == old(sessions)[j]))
    {
      var k := Key(client, backend);
      r := Get(k, now);
      if r.None? && bound.Some? {
        var socket := Insert(k, bound.value, now, now);
        r := Some(socket);
      }
    }

    method UpdateActivity(client: SocketAddr, backend: SocketAddr, now: nat)
      modifies this
      ensures sessions == Touched(old(sessions), Key(client, backend), now)
      ensures Key(client, backend) in sessions <==> Key(client, backend) in old(sessions)
      ensures Key(client, backend) in sessions ==> sessions[Key(client, backend)].lastActivity == now
      ensures SameBut(old(sessions), sessions, Key(client, backend))
    {
      var k := Key(client, backend);
      if k in sessions {
        sessions := sessions[k := sessions[k].(lastActivity := now)];
      }
    }

    /** Removes exactly the sessions idle for more than the timeout and returns their number. */
    method CleanupExpired(now: nat) returns (removed: nat)
      modifies this
      ensures sessions == Swept(old(sessions), now, timeout)
      ensures forall k :: k in sessions <==> k in old(sessions) && now <= old(sessions)[k].lastActivity + timeout
      ensures forall k :: k in sessions ==> sessions[k] == old(sessions)[k]
      ensures removed == |ExpiredKeys(old(sessions), now, timeout)| == |old(sessions)| - |sessions|
    {
      removed := 0;
      var todo := sessions.Keys;
      ghost var all := sessions;
      ghost var gone: set<Key> := {};
      while todo != {}
        invariant todo <= all.Keys && gone !! todo && gone <= ExpiredKeys(all, now, timeout)
        invariant sessions == all - gone
        invariant forall k :: k in all && k !in todo && Expired(all[k], now, timeout) ==> k in gone
        invariant removed == |gone|
        decreases todo
      {
        var k :| k in todo;
        if Expired(sessions[k], now, timeout) {
          sessions := sessions - {k};
          gone := gone + {k};
          removed := removed + 1;
        }
        todo := todo - {k};
      }
      assert gone == ExpiredKeys(all, now, timeout);
      assert sessions == Swept(all, now, timeout);
      assert sessions.Keys == all.Keys - gone;
      assert |all.Keys| == |sessions.Keys| + |gone|;
    }
  }
}
