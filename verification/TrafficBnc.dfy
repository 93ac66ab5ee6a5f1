/** The classes behind the traffic-bounce sessions, each method proved to do what Bounce says. */
module TrafficBnc {
  import opened ListenPorts
  import B = Bounce

  /** The I/O manager as far as these sessions use it. */
  class Sockets {
    var next: nat
    var open: map<int, int>

    ghost function Value(): B.Net
      reads this
    {
      B.Net(next, open)
    }

    method RegisterTCPServerSocket(port: int, bound: bool) returns (sockid: int)
      modifies this
      ensures sockid == if bound then old(next) else -1
      ensures Value() == if bound then B.Net(old(next) + 1, old(open)[old(next) as int := port]) else old(Value())
    {
      if !bound {
        return -1;
      }
      sockid := next;
      open := open[sockid := port];
      next := next + 1;
    }

    method RegisterTCPClientSocket() returns (sockid: int)
      modifies this`next
      ensures sockid == old(next) && Value() == old(Value()).(next := old(next) + 1)
    {
      sockid := next;
      next := next + 1;
    }

    method CloseSocket(sockid: int)
      modifies this`open
      ensures Value() == old(Value()).(open := old(open) - {sockid})
    {
      open := open - {sockid};
    }
  }

  class PasvListener {
    var sockid: int
    var listenport: int
    var failedlistenports: seq<int>

    ghost function Value(): B.Listener
      reads this
    {
      B.Listener(sockid, listenport, failedlistenports)
    }

    constructor ()
      ensures Value() == B.NEW_SESSION.listener
    {
      sockid := -1;
      listenport := -1;
      failedlistenports := [];
    }

    method Listen(io: Sockets, port: int, bound: bool) returns (ok: bool)
      modifies this, io
      ensures ok == bound
      ensures (io.Value(), Value()) == B.Listen(old(io.Value()), old(Value()), port, bound)
    {
      Disconnect(io);
      listenport := port;
      sockid := io.RegisterTCPServerSocket(listenport, bound);
      if sockid == -1 {
        failedlistenports := failedlistenports + [listenport];
      }
      ok := sockid != -1;
    }

    method Disconnect(io: Sockets)
      modifies this`sockid, io`open
      ensures (io.Value(), Value()) == B.CloseListener(old(io.Value()), old(Value()))
    {
      if sockid == -1 {
        return;
      }
      io.CloseSocket(sockid);
      sockid := -1;
    }

    /** The notice of a failed bind. It clears its parameter, not the field, so an open listener stays open. */
    method FDFail()
      modifies this`failedlistenports
      ensures Value() == B.ListenFailed(old(Value()))
    {
      if failedlistenports != [] {
        failedlistenports := failedlistenports[1..];
      }
    }
  }

  /** The accepted connection. Closing it leaves the listening sockets alone. */
  class PasvConn {
    var sockid: int

    constructor ()
      ensures sockid == -1
    {
      sockid := -1;
    }

    method Activate(id: int)
      modifies this
      ensures sockid == id
    {
      sockid := id;
    }

    method Disconnect()
      modifies this
      ensures sockid == -1
    {
      sockid := -1;
    }
  }

  /** The dialled connection. */
  class PortConn {
    var sockid: int

    constructor ()
      ensures sockid == -1
    {
      sockid := -1;
    }

    method Activate(io: Sockets)
      modifies this, io`next
      ensures sockid == old(io.next) && io.Value() == old(io.Value()).(next := old(io.next) + 1)
    {
      sockid := io.RegisterTCPClientSocket();
    }

    method Disconnect()
      modifies this
      ensures sockid == -1
    {
      sockid := -1;
    }
  }

  class TrafficBncSession {
    const pasvlistener: PasvListener
    const pasvconn: PasvConn
    const portconn: PortConn
    var state: B.State

    ghost function Repr(): set<object> { {this, pasvlistener, pasvconn, portconn} }

    ghost predicate Apart(other: TrafficBncSession) {
      this != other && pasvlistener != other.pasvlistener && pasvconn != other.pasvconn && portconn != other.portconn
    }

    ghost function Value(): B.Session
      reads Repr()
    {
      B.Session(state, pasvlistener.Value(), pasvconn.sockid, portconn.sockid)
    }

    constructor ()
      ensures Value() == B.NEW_SESSION && fresh(Repr())
    {
      pasvlistener := new PasvListener();
      pasvconn := new PasvConn();
      portconn := new PortConn();
      state := B.INACTIVE;
    }

    /** The body of the bind loop. */
    method TryBind(lpm: ListenPortManager, io: Sockets, a: B.Attempt) returns (bindport: int, success: bool)
      requires lpm.Valid()
      modifies pasvlistener, lpm, io
      ensures lpm.Valid()
      ensures (bindport, success, B.Shared(lpm.Value(), io.Value()), pasvlistener.Value())
           == B.BindTurn(old(B.Shared(lpm.Value(), io.Value())), old(pasvlistener.Value()), a)
    {
      ghost var p := lpm.Value();
      success := false;
      bindport := lpm.AcquirePort(a.rand);
      if bindport == -1 {
        return;
      }
      B.AcquireCosts(p, a.rand);
      success := pasvlistener.Listen(io, bindport, a.bound);
      if !success {
        lpm.MarkPortUnavailable(bindport, a.now);
      }
    }

    method Activate(lpm: ListenPortManager, io: Sockets, attempts: nat -> B.Attempt) returns (bindport: int)
      requires lpm.Valid()
      modifies `state, pasvlistener, lpm, io
      ensures lpm.Valid()
      ensures (bindport, B.Shared(lpm.Value(), io.Value()), Value())
           == B.Activate(old(B.Shared(lpm.Value(), io.Value())), old(Value()), attempts)
    {
      if state == B.AWAITING_PASV {
        lpm.ReleasePort(pasvlistener.listenport);
      }
      ghost var g, l := B.Shared(lpm.Value(), io.Value()), pasvlistener.Value();
      var success := false;
      bindport := -1;
      var t: nat := 0;
      while !success
        invariant lpm.Valid()
        invariant state == old(state)
        invariant pasvconn.sockid == old(pasvconn.sockid) && portconn.sockid == old(portconn.sockid)
        invariant success ==> bindport != -1
        invariant B.BindLoop(g, l, attempts, 0) ==
          if success then (bindport, B.Shared(lpm.Value(), io.Value()), pasvlistener.Value())
          else B.BindLoop(B.Shared(lpm.Value(), io.Value()), pasvlistener.Value(), attempts, t)
        decreases if success then 0 else 1 + FreeCount(lpm.availableports)
      {
        bindport, success := TryBind(lpm, io, attempts(t));
        if bindport == -1 {
          // exhausted
          return -1;
        }
        t := t + 1;
      }
      state := B.AWAITING_PASV;
    }

    method Disconnect(lpm: ListenPortManager, io: Sockets)
      requires lpm.Valid()
      modifies Repr(), lpm, io
      ensures lpm.Valid()
      ensures (B.Shared(lpm.Value(), io.Value()), Value())
           == B.Disconnect(old(B.Shared(lpm.Value(), io.Value())), old(Value()))
    {
      pasvconn.Disconnect();
      portconn.Disconnect();
      pasvlistener.Disconnect(io);
      if state == B.AWAITING_PASV {
        lpm.ReleasePort(pasvlistener.listenport);
      }
      state := B.INACTIVE;
    }

    /** The accept event: PasvListener::FDNew and pasvConnected. */
    method FDNew(lpm: ListenPortManager, io: Sockets, newsockid: int)
      requires lpm.Valid()
      modifies Repr(), lpm, io
      ensures lpm.Valid()
      ensures (B.Shared(lpm.Value(), io.Value()), Value())
           == B.PasvConnected(old(B.Shared(lpm.Value(), io.Value())), old(Value()), newsockid)
    {
      state := B.ACTIVE;
      pasvconn.Activate(newsockid);
      portconn.Activate(io);
      lpm.ReleasePort(pasvlistener.listenport);
      pasvlistener.Disconnect(io);
    }

    /** PortConn::FDFail; the id it comes with is not looked at. */
    method PortConnectFailure()
      modifies `state, pasvconn
      ensures Value() == B.PortConnectFailure(old(Value()))
    {
      pasvconn.Disconnect();
      state := B.INACTIVE;
    }

    /** PasvConn::FDDisconnected. */
    method PasvConnClosed(sockid: int)
      modifies `state, portconn
      ensures Value() == B.PasvClosed(old(Value()), sockid)
    {
      if pasvconn.sockid == -1 || pasvconn.sockid != sockid {
        return;
      }
      portconn.Disconnect();
      state := B.INACTIVE;
    }

    /** PortConn::FDDisconnected. */
    method PortConnClosed(sockid: int)
      modifies Repr()
      ensures Value() == B.PortClosed(old(Value()), sockid)
    {
      if portconn.sockid == -1 || portconn.sockid != sockid {
        return;
      }
      portconn.Disconnect();
      pasvconn.Disconnect();
      state := B.INACTIVE;
    }

    predicate IsActive()
      reads this
    {
      state != B.INACTIVE
    }

    method DropListener(lpm: ListenPortManager, io: Sockets)
      requires lpm.Valid()
      modifies `state, pasvlistener, lpm, io
      ensures lpm.Valid()
      ensures (B.Shared(lpm.Value(), io.Value()), Value())
           == B.DropListener(old(B.Shared(lpm.Value(), io.Value())), old(Value()))
    {
      if state == B.AWAITING_PASV {
        pasvlistener.Disconnect(io);
        lpm.ReleasePort(pasvlistener.listenport);
        state := B.INACTIVE;
      }
    }
  }

  /** The first i listeners of a pool are dropped, and target is the first idle session among them, if any. */
  ghost predicate Dropping(g: B.Shared, vals: seq<B.Session>, i: nat, h: B.Shared, cur: seq<B.Session>, target: nat) {
    B.DoneUpTo(g, vals, B.DropListener, i, h, cur) && target <= |cur| == |vals| && B.PickedUpTo(cur, i, target)
  }

  lemma DroppingNone(g: B.Shared, vals: seq<B.Session>)
    ensures Dropping(g, vals, 0, g, vals, |vals|)
  {
    B.DoneNone(g, vals, B.DropListener);
    B.PickedNone(vals);
  }

  lemma DroppingNext(g: B.Shared, vals: seq<B.Session>, i: nat, h: B.Shared, cur: seq<B.Session>, target: nat,
                     k: B.Shared, next: seq<B.Session>)
    requires Dropping(g, vals, i, h, cur, target) && i < |cur| == |next| && next == cur[i := next[i]]
    requires B.DropListener(h, cur[i]) == (k, next[i])
    ensures Dropping(g, vals, i + 1, k, next, if target == |next| && next[i].state == B.INACTIVE then i else target)
  {
    hide B.DoneUpTo, B.PickedUpTo, B.DropListener;
    B.DropNext(g, vals, i, h, cur, k, next);
    B.PickedNext(cur, next, i, target);
  }

  lemma DroppingAll(g: B.Shared, vals: seq<B.Session>, h: B.Shared, cur: seq<B.Session>, target: nat)
    requires Dropping(g, vals, |cur|, h, cur, target)
    ensures B.DropAll(g, vals) == (h, cur) && B.FirstInactive(cur) == target
  {
    B.DoneAll(g, vals, B.DropListener, h, cur);
    B.PickedIsFirst(cur, target);
  }

  /** The sessions of one control connection. */
  class TrafficBncSessions {
    var tbncsessions: seq<TrafficBncSession>

    ghost function Repr(): (r: set<object>)
      reads this
      ensures this in r && forall s :: s in tbncsessions ==> s.Repr() <= r
    {
      {this as object} + (set s, o | s in tbncsessions && o in s.Repr() :: o)
    }

    /** No two sessions share anything. */
    ghost predicate Valid()
      reads this
    {
      forall i, j :: 0 <= i < j < |tbncsessions| ==> tbncsessions[i].Apart(tbncsessions[j])
    }

    ghost function Value(): (r: seq<B.Session>)
      reads Repr()
      ensures |r| == |tbncsessions|
      ensures forall i :: 0 <= i < |r| ==> r[i] == tbncsessions[i].Value()
    {
      seq(|tbncsessions|, i requires 0 <= i < |tbncsessions| reads Repr() => tbncsessions[i].Value())
    }

    constructor ()
      ensures Valid() && Value() == [] && fresh(Repr())
    {
      tbncsessions := [];
    }

    method Activate(lpm: ListenPortManager, io: Sockets, attempts: nat -> B.Attempt) returns (bindport: int)
      requires Valid() && lpm.Valid()
      modifies Repr(), lpm, io
      ensures Valid() && lpm.Valid()
      ensures (bindport, B.Shared(lpm.Value(), io.Value()), Value())
           == B.PoolActivate(old(B.Shared(lpm.Value(), io.Value())), old(Value()), attempts)
    {
      hide B.PoolActivate, B.Activate;
      ghost var g, vals := B.Shared(lpm.Value(), io.Value()), Value();
      var target := DropListeners(lpm, io);
      ghost var h, dropped := B.Shared(lpm.Value(), io.Value()), Value();
      if target == |tbncsessions| {
        AddSession();
      }
      bindport := ActivateSession(target, lpm, io, attempts);
      B.PoolActivated(g, vals, attempts, h, dropped, bindport, B.Shared(lpm.Value(), io.Value()), Value());
    }

    method AddSession()
      requires Valid()
      modifies this
      ensures Valid() && Value() == old(Value()) + [B.NEW_SESSION] && fresh(Repr() - old(Repr()))
      ensures old(Repr()) <= Repr()
    {
      var session := new TrafficBncSession();
      tbncsessions := tbncsessions + [session];
    }

    method ActivateSession(target: nat, lpm: ListenPortManager, io: Sockets, attempts: nat -> B.Attempt)
      returns (bindport: int)
      requires Valid() && lpm.Valid() && target < |tbncsessions|
      modifies tbncsessions[target].Repr(), lpm, io
      ensures lpm.Valid() && Valid() && tbncsessions == old(tbncsessions) && Repr() == old(Repr())
      ensures (bindport, B.Shared(lpm.Value(), io.Value()), tbncsessions[target].Value())
           == B.Activate(old(B.Shared(lpm.Value(), io.Value())), old(Value())[target], attempts)
      ensures Value() == old(Value())[target := tbncsessions[target].Value()]
    {
      hide B.Activate, TrafficBncSessions.Repr, TrafficBncSessions.Value;
      ghost var before := Value();
      assert forall k :: 0 <= k < |tbncsessions| && k != target ==>
        tbncsessions[target].Repr() !! tbncsessions[k].Repr();
      bindport := tbncsessions[target].Activate(lpm, io, attempts);
      assert forall k :: 0 <= k < |tbncsessions| && k != target ==> tbncsessions[k].Value() == before[k];
    }

    /** The loop of activate: every listener is dropped and the first idle session picked. */
    method DropListeners(lpm: ListenPortManager, io: Sockets) returns (target: nat)
      requires Valid() && lpm.Valid()
      modifies Repr(), lpm, io
      ensures tbncsessions == old(tbncsessions) && Repr() == old(Repr()) && Valid() && lpm.Valid()
      ensures (B.Shared(lpm.Value(), io.Value()), Value())
           == B.DropAll(old(B.Shared(lpm.Value(), io.Value())), old(Value()))
      ensures target == B.FirstInactive(Value())
    {
      ghost var g, vals := B.Shared(lpm.Value(), io.Value()), Value();
      target := |tbncsessions|;
      var i := 0;
      hide B.DropListener, B.DropAll, B.FirstInactive, Repr, Value, Dropping;
      DroppingNone(g, vals);
      while i < |tbncsessions|
        invariant 0 <= i <= |tbncsessions| && tbncsessions == old(tbncsessions) && lpm.Valid()
        invariant Repr() == old(Repr())
        invariant Dropping(g, vals, i, B.Shared(lpm.Value(), io.Value()), Value(), target)
      {
        ghost var h, cur := B.Shared(lpm.Value(), io.Value()), Value();
        assert tbncsessions[i] in tbncsessions;
        var idle := DropOne(i, lpm, io);
        DroppingNext(g, vals, i, h, cur, target, B.Shared(lpm.Value(), io.Value()), Value());
        if idle && target == |tbncsessions| {
          target := i;
        }
        i := i + 1;
      }
      DroppingAll(g, vals, B.Shared(lpm.Value(), io.Value()), Value(), target);
    }

    /** One session's listener is dropped; the other sessions stay as they are. Tells whether it is idle then. */
    method DropOne(i: nat, lpm: ListenPortManager, io: Sockets) returns (idle: bool)
      requires Valid() && lpm.Valid() && i < |tbncsessions|
      modifies tbncsessions[i].Repr(), lpm, io
      ensures lpm.Valid() && Valid() && tbncsessions == old(tbncsessions) && Repr() == old(Repr())
      ensures (B.Shared(lpm.Value(), io.Value()), tbncsessions[i].Value())
           == B.DropListener(old(B.Shared(lpm.Value(), io.Value())), old(Value())[i])
      ensures Value() == old(Value())[i := tbncsessions[i].Value()] && idle == (Value()[i].state == B.INACTIVE)
    {
      hide B.DropListener, TrafficBncSessions.Repr, TrafficBncSessions.Value;
      ghost var before := Value();
      assert forall k :: 0 <= k < |tbncsessions| && k != i ==> tbncsessions[i].Repr() !! tbncsessions[k].Repr();
      tbncsessions[i].DropListener(lpm, io);
      idle := !tbncsessions[i].IsActive();
      assert forall k :: 0 <= k < |tbncsessions| && k != i ==> tbncsessions[k].Value() == before[k];
    }

    method DisconnectOne(i: nat, lpm: ListenPortManager, io: Sockets)
      requires Valid() && lpm.Valid() && i < |tbncsessions|
      modifies tbncsessions[i].Repr(), lpm, io
      ensures lpm.Valid() && Valid() && tbncsessions == old(tbncsessions) && Repr() == old(Repr())
      ensures (B.Shared(lpm.Value(), io.Value()), tbncsessions[i].Value())
           == B.Disconnect(old(B.Shared(lpm.Value(), io.Value())), old(Value())[i])
      ensures Value() == old(Value())[i := tbncsessions[i].Value()]
    {
      hide B.Disconnect, TrafficBncSessions.Repr, TrafficBncSessions.Value;
      ghost var before := Value();
      assert forall k :: 0 <= k < |tbncsessions| && k != i ==> tbncsessions[i].Repr() !! tbncsessions[k].Repr();
      tbncsessions[i].Disconnect(lpm, io);
      assert forall k :: 0 <= k < |tbncsessions| && k != i ==> tbncsessions[k].Value() == before[k];
    }

    method Disconnect(lpm: ListenPortManager, io: Sockets)
      requires Valid() && lpm.Valid()
      modifies Repr(), lpm, io
      ensures tbncsessions == old(tbncsessions) && Repr() == old(Repr()) && Valid() && lpm.Valid()
      ensures (B.Shared(lpm.Value(), io.Value()), Value())
           == B.PoolDisconnect(old(B.Shared(lpm.Value(), io.Value())), old(Value()))
    {
      ghost var g, vals := B.Shared(lpm.Value(), io.Value()), Value();
      var i := 0;
      hide B.DoneUpTo, B.Disconnect, Repr;
      B.DoneNone(g, vals, B.Disconnect);
      while i < |tbncsessions|
        invariant 0 <= i <= |tbncsessions| && tbncsessions == old(tbncsessions) && lpm.Valid()
        invariant Repr() == old(Repr()) && Valid()
        invariant B.DoneUpTo(g, vals, B.Disconnect, i, B.Shared(lpm.Value(), io.Value()), Value())
      {
        ghost var h, cur := B.Shared(lpm.Value(), io.Value()), Value();
        assert tbncsessions[i] in tbncsessions;
        DisconnectOne(i, lpm, io);
        B.DisconnectNext(g, vals, i, h, cur, B.Shared(lpm.Value(), io.Value()), Value());
        i := i + 1;
      }
      B.DoneAll(g, vals, B.Disconnect, B.Shared(lpm.Value(), io.Value()), Value());
    }
  }
}
