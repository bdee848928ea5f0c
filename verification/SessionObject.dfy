/**
 The critical sections of `vpnSession` as methods on the object they mutate, each proved against the
 function that the transition system of module Session applies for it.
 */
module SessionObject {
  import opened Prelude
  import opened Session

  class VpnSession {
    var closing: bool
    var activeDials: int
    var connections: set<Conn>
    var parked: bool

    /** The fields under `connMu` as one value. */
    ghost function Locked(): Shared
      reads this
    {
      Shared(closing, activeDials, connections, parked)
    }

    constructor ()
      ensures Locked() == INIT.sh
    {
      closing, activeDials, connections, parked := false, 0, {}, false;
    }

    method BeginDial() returns (admitted: bool)
      modifies this
      ensures admitted == !old(closing)
      ensures Locked() == if admitted then AdmitDial(old(Locked())) else old(Locked())
    {
      if closing {
        return false;
      }
      activeDials := activeDials + 1;
      return true;
    }

    /** Second critical section of a dial: hand the socket out, or leave it to be discarded. */
    method SettleDial(conn: Option<Conn>) returns (tracked: bool)
      modifies this
      ensures tracked == (conn.Some? && !old(closing))
      ensures Locked() == if tracked then TrackDial(old(Locked()), conn.value) else old(Locked())
    {
      if conn.Some? && !closing {
        connections := connections + {conn.value};
        activeDials := activeDials - 1;
        parked := false;
        return true;
      }
      return false;
    }

    method EndDial()
      modifies this
      ensures Locked() == ReleaseDial(old(Locked()))
    {
      activeDials := activeDials - 1;
      parked := false;
    }

    method UntrackConnection(conn: Conn)
      modifies this
      ensures Locked() == Untrack(old(Locked()), conn)
    {
      connections := connections - {conn};
      parked := false;
    }

    /** First critical section of closeConnections: refuse dials and list the tracked sockets. */
    method BeginClose() returns (snapshot: seq<Conn>)
      modifies this
      ensures Locked() == RefuseDials(old(Locked()))
      ensures multiset(snapshot) == multiset(old(connections))
    {
      closing := true;
      snapshot := [];
      var rest := connections;
      while rest != {}
        invariant rest <= connections
        invariant multiset(snapshot) == multiset(connections - rest)
        invariant Locked() == RefuseDials(old(Locked()))
        decreases rest
      {
        var conn :| conn in rest;
        snapshot := snapshot + [conn];
        assert connections - (rest - {conn}) == (connections - rest) + {conn};
        rest := rest - {conn};
      }
      assert connections - rest == connections;
    }

    /** The other goroutines, for as long as the lock is free: whatever OnlyShrinksAlong allows them. */
    method Others()
      requires closing
      modifies this
      ensures OnlyShrinks(old(Locked()), Locked())
    {
      var kept :| kept <= connections;
      var fewer :| fewer <= activeDials;
      connections, activeDials, parked := kept, fewer, false;
    }

    /**
     closeConnections with every other goroutine interleaved at each point where the lock is free: it closes
     exactly the sockets tracked when dials were refused, and leaves none tracked.
     */
    method CloseConnections() returns (shut: seq<Conn>)
      modifies this
      ensures closing && connections == {}
      ensures multiset(shut) == multiset(old(connections))
    {
      var snapshot := BeginClose();
      assert forall c :: c in old(connections) <==> c in multiset(old(connections));
      assert forall c :: c in connections ==> c in snapshot;
      shut := [];
      for i := 0 to |snapshot|
        invariant closing
        invariant forall c :: c in connections ==> c in snapshot[i..]
        invariant shut == snapshot[..i]
      {
        Others();
        shut := shut + [snapshot[i]];
        Others();
        UntrackConnection(snapshot[i]);
      }
      assert snapshot[..|snapshot|] == snapshot;
    }

    /** One turn of the loop in waitConnections: sleep while a socket or a dial is left. */
    method CheckWait() returns (asleep: bool)
      requires !parked
      modifies this
      ensures asleep == MustWait(old(Locked()))
      ensures Locked() == old(Locked()).(parked := asleep)
    {
      asleep := connections != {} || activeDials > 0;
      parked := asleep;
    }
  }
}
