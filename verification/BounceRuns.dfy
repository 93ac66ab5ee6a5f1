/** Runs of the traffic-bounce sessions: any number of control connections, each with its pool, sharing one
    allocator. The worker thread delivers events one at a time, so an event is one step. */
module BounceRuns {
  import opened ListenPorts
  import opened Bounce

  // ---- the world and its events ----

  /** `most` remembers the largest number of sessions of the pool that were ever active at once. */
  datatype Pool = Pool(sessions: seq<Session>, most: nat)

  /** `reported` are the sockets whose end has been reported; `clock` is the latest time read. */
  datatype World = World(g: Shared, pools: seq<Pool>, reported: set<int>, clock: nat)

  datatype Event =
    | Opened
    | Activated(i: nat, attempts: nat -> Attempt, until: nat)
    | Disconnected(i: nat)
    | Accepted(i: nat, j: nat, newsockid: nat)
    | ConnectFailed(i: nat, j: nat)
    | PasvEnded(i: nat, j: nat, id: int)
    | PortEnded(i: nat, j: nat, id: int)
    | BindNotice(i: nat, j: nat)
    | Ticked(now: nat)

  predicate At(w: World, i: nat, j: nat) {
    i < |w.pools| && j < |w.pools[i].sessions|
  }

  /** What the outside may do: accept on an open listener, fail the current connection attempt, report the
      end of each socket once, and read a clock that never goes back. */
  ghost predicate Enabled(w: World, e: Event) {
    match e
    case Opened => true
    case Activated(i, attempts, until) =>
      i < |w.pools| && w.clock <= until && forall t: nat :: w.clock <= attempts(t).now <= until
    case Disconnected(i) => i < |w.pools|
    case Accepted(i, j, newsockid) => At(w, i, j) && w.pools[i].sessions[j].state == AWAITING_PASV
    case ConnectFailed(i, j) => At(w, i, j) && w.pools[i].sessions[j].state == ACTIVE
    case PasvEnded(i, j, id) => At(w, i, j) && id !in w.reported
    case PortEnded(i, j, id) => At(w, i, j) && id !in w.reported
    case BindNotice(i, j) => At(w, i, j)
    case Ticked(now) => w.clock <= now
  }

  function ActiveCount(ss: seq<Session>): nat {
    if ss == [] then 0 else (if ss[0].state == ACTIVE then 1 else 0) + ActiveCount(ss[1..])
  }

  function WithPool(w: World, i: nat, g: Shared, ss: seq<Session>): World
    requires i < |w.pools|
  {
    var n := ActiveCount(ss);
    var most := if n > w.pools[i].most then n else w.pools[i].most;
    w.(g := g, pools := w.pools[i := Pool(ss, most)])
  }

  function WithSession(w: World, i: nat, j: nat, g: Shared, s: Session): World
    requires At(w, i, j)
  {
    WithPool(w, i, g, w.pools[i].sessions[j := s])
  }

  function Step(w: World, e: Event): World
    requires Enabled(w, e) && w.g.ports.Valid()
  {
    match e
    case Opened => w.(pools := w.pools + [Pool([], 0)])
    case Activated(i, attempts, until) =>
      var (port, g, ss) := PoolActivate(w.g, w.pools[i].sessions, attempts);
      WithPool(w, i, g, ss).(clock := until)
    case Disconnected(i) =>
      var (g, ss) := PoolDisconnect(w.g, w.pools[i].sessions);
      WithPool(w, i, g, ss)
    case Accepted(i, j, newsockid) =>
      var (g, s) := PasvConnected(w.g, w.pools[i].sessions[j], newsockid);
      WithSession(w, i, j, g, s)
    case ConnectFailed(i, j) =>
      var s := w.pools[i].sessions[j];
      WithSession(w, i, j, w.g, PortConnectFailure(s)).(reported := w.reported + {s.portid})
    case PasvEnded(i, j, id) =>
      WithSession(w, i, j, w.g, PasvClosed(w.pools[i].sessions[j], id)).(reported := w.reported + {id})
    case PortEnded(i, j, id) =>
      WithSession(w, i, j, w.g, PortClosed(w.pools[i].sessions[j], id)).(reported := w.reported + {id})
    case BindNotice(i, j) =>
      var s := w.pools[i].sessions[j];
      WithSession(w, i, j, w.g, s.(listener := ListenFailed(s.listener)))
    case Ticked(now) => w.(g := w.g.(ports := w.g.ports.Tick(now)), clock := now)
  }

  /** The events es lead from w to v. That the allocator stays valid is part of what is proved below. */
  ghost predicate Runs(w: World, es: seq<Event>, v: World)
    decreases |es|
  {
    if es == [] then w == v
    else w.g.ports.Valid() && Enabled(w, es[0]) && Runs(Step(w, es[0]), es[1..], v)
  }

  ghost predicate Initial(w: World) {
    && w.pools == []
    && w.g.net.open == map[]
    && exists first: nat, last: nat :: first < last && w.g.ports == FreshPorts(first, last)
  }

  // ---- pools ----

  /** What a pool holds: at most one listening socket on a port. */
  datatype Slot = Idle | On(sockid: int, port: int)

  function SlotOf(ss: seq<Session>): Slot {
    if ss == [] then Idle
    else if ss[0].state == AWAITING_PASV then On(ss[0].listener.sockid, ss[0].listener.port)
    else SlotOf(ss[1..])
  }

  /** Ids a session keeps from an earlier connection are ids already reported. */
  predicate Stale(id: int, reported: set<int>) { id == -1 || id in reported }

  /** A session in order: it has a listening socket exactly while awaiting, and both connections while active. */
  predicate SessionOk(s: Session, reported: set<int>) {
    && (s.listener.sockid != -1 <==> s.state == AWAITING_PASV)
    && (s.state != ACTIVE ==> Stale(s.pasvid, reported) && Stale(s.portid, reported))
    && (s.state == ACTIVE ==> s.pasvid != -1 && s.portid != -1)
  }

  /** Sessions in order, and at most one of them awaiting. */
  ghost predicate PoolOk(ss: seq<Session>, reported: set<int>) {
    && (forall j :: 0 <= j < |ss| ==> SessionOk(ss[j], reported))
    && (forall j, k :: 0 <= j < k < |ss| ==> ss[j].state != AWAITING_PASV || ss[k].state != AWAITING_PASV)
  }

  lemma {:induction false} SlotAt(ss: seq<Session>, j: nat)
    requires j < |ss| && ss[j].state == AWAITING_PASV
    requires forall k, l :: 0 <= k < l < |ss| ==> ss[k].state != AWAITING_PASV || ss[l].state != AWAITING_PASV
    ensures SlotOf(ss) == On(ss[j].listener.sockid, ss[j].listener.port)
  {
    if j > 0 {
      SlotAt(ss[1..], j - 1);
    }
  }

  lemma {:induction false} SlotIdle(ss: seq<Session>)
    ensures SlotOf(ss) == Idle <==> forall j :: 0 <= j < |ss| ==> ss[j].state != AWAITING_PASV
  {
    if ss != [] {
      SlotIdle(ss[1..]);
      assert forall j :: 1 <= j < |ss| ==> ss[j] == ss[1..][j - 1];
      if forall j :: 0 <= j < |ss| ==> ss[j].state != AWAITING_PASV {
        assert forall j :: 0 <= j < |ss[1..]| ==> ss[1..][j] == ss[j + 1];
      }
    }
  }

  /** The session a pool listens through. */
  lemma SlotHolder(ss: seq<Session>) returns (j: nat)
    requires SlotOf(ss) != Idle
    ensures j < |ss| && ss[j].state == AWAITING_PASV
  {
    SlotIdle(ss);
    j :| 0 <= j < |ss| && ss[j].state == AWAITING_PASV;
  }

  /** One session of the pool changes. */
  lemma OneChanged(ss: seq<Session>, reported: set<int>, j: nat, s: Session)
    requires PoolOk(ss, reported) && j < |ss| && SessionOk(s, reported)
    requires s.state == AWAITING_PASV ==> SlotOf(ss) == Idle || ss[j].state == AWAITING_PASV
    ensures PoolOk(ss[j := s], reported)
    ensures SlotOf(ss[j := s]) ==
      if s.state == AWAITING_PASV then On(s.listener.sockid, s.listener.port)
      else if ss[j].state == AWAITING_PASV then Idle
      else SlotOf(ss)
  {
    var tt := ss[j := s];
    SlotIdle(ss);
    SlotIdle(tt);
    if s.state == AWAITING_PASV {
      SlotAt(tt, j);
    } else if ss[j].state != AWAITING_PASV && SlotOf(ss) != Idle {
      var k := SlotHolder(ss);
      SlotAt(ss, k);
      assert tt[k] == ss[k];
      SlotAt(tt, k);
    }
  }

  lemma MoreReported(ss: seq<Session>, reported: set<int>, id: int)
    requires PoolOk(ss, reported)
    ensures PoolOk(ss, reported + {id})
  {
    assert forall j :: 0 <= j < |ss| ==> SessionOk(ss[j], reported) ==> SessionOk(ss[j], reported + {id});
  }

  /** What becomes of the shared state when a slot is given up. */
  function Vacate(g: Shared, s: Slot): Shared {
    if s == Idle then g
    else Shared(g.ports.Release(s.port), g.net.(open := g.net.open - {s.sockid}))
  }

  /** Dropping every listener gives the pool's slot up and leaves the other sessions alone. */
  lemma {:induction false} DropAllVacates(g: Shared, ss: seq<Session>, reported: set<int>)
    requires PoolOk(ss, reported)
    ensures var (h, dd) := DropAll(g, ss);
      && h == Vacate(g, SlotOf(ss)) && SlotOf(dd) == Idle && PoolOk(dd, reported)
      && forall j :: 0 <= j < |ss| ==>
        dd[j] == if ss[j].state == AWAITING_PASV
                 then ss[j].(state := INACTIVE, listener := ss[j].listener.(sockid := -1))
                 else ss[j]
    decreases |ss|
  {
    if ss != [] {
      var rest := ss[1..];
      var (h, s) := DropListener(g, ss[0]);
      DropAllVacates(h, rest, reported);
      SlotIdle(rest);
      var (k, dd) := DropAll(g, ss);
      assert dd == [s] + DropAll(h, rest).1;
      forall j | 0 <= j < |ss|
        ensures dd[j] == if ss[j].state == AWAITING_PASV
                         then ss[j].(state := INACTIVE, listener := ss[j].listener.(sockid := -1))
                 else ss[j]
      {
        if j > 0 {
          assert ss[j] == rest[j - 1] && dd[j] == DropAll(h, rest).1[j - 1];
        }
      }
      SlotIdle(dd);
      assert SessionOk(ss[0], reported);
    }
  }

  /** So does disconnecting every session, which also forgets every connection. */
  lemma {:induction false} DisconnectVacates(g: Shared, ss: seq<Session>, reported: set<int>)
    requires PoolOk(ss, reported)
    ensures var (h, dd) := PoolDisconnect(g, ss);
      && h == Vacate(g, SlotOf(ss)) && SlotOf(dd) == Idle && PoolOk(dd, reported)
      && forall j :: 0 <= j < |dd| ==> dd[j] == Session(INACTIVE, ss[j].listener.(sockid := -1), -1, -1)
    decreases |ss|
  {
    if ss != [] {
      var rest := ss[1..];
      var (h, s) := Disconnect(g, ss[0]);
      DisconnectVacates(h, rest, reported);
      SlotIdle(rest);
      var (k, dd) := PoolDisconnect(g, ss);
      assert dd == [s] + PoolDisconnect(h, rest).1;
      forall j | 0 <= j < |ss| ensures dd[j] == Session(INACTIVE, ss[j].listener.(sockid := -1), -1, -1) {
        if j > 0 {
          assert ss[j] == rest[j - 1] && dd[j] == PoolDisconnect(h, rest).1[j - 1];
        }
      }
      SlotIdle(dd);
      assert SessionOk(ss[0], reported);
    }
  }

  // ---- the bind loop ----

  /** The ports the bind loop tries. */
  ghost function Tried(g: Shared, l: Listener, attempts: nat -> Attempt, t: nat): set<int>
    requires g.ports.Valid()
    decreases FreeCount(g.ports.available)
  {
    var (port, bound, h, c) := BindTurn(g, l, attempts(t));
    if port == -1 then {} else if bound then {port} else {port} + Tried(h, c, attempts, t + 1)
  }

  /** What a run of the bind loop does to the ports: the ones it tried were free; the last one is out when
      its bind succeeded, every other one is blocked, and no port is touched otherwise. */
  ghost predicate BoundFrom(p: Ports, q: Ports, tried: set<int>, port: int, low: nat, high: nat) {
    && q.Valid() && q.first == p.first && |q.available| == |p.available|
    && (forall k :: k in tried ==> p.Free(k))
    && (forall k :: k in tried && k != port ==> q.Blocked(k) && low <= q.unavailable[k] <= high)
    && (forall k :: k !in tried ==> q.Free(k) == p.Free(k) && q.Blocked(k) == p.Blocked(k))
    && (forall k :: p.Blocked(k) ==> q.Blocked(k) && q.unavailable[k] == p.unavailable[k])
    && (if port == -1 then forall k :: !q.Free(k) else port in tried && q.Out(port))
  }

  /** The listener ends up on the port, with a new socket; or closed, and no socket was opened. */
  ghost predicate Listening(net: Net, after: Net, c: Listener, port: int) {
    if port == -1 then after == net && c.sockid == -1
    else c.port == port && c.sockid == net.next && after == Net(net.next + 1, net.open[net.next as int := port])
  }

  /** One turn that fails marks its port. */
  lemma TurnMarks(p: Ports, rand: nat, now: nat)
    requires p.Valid() && p.Acquired(rand) != -1
    ensures p.Free(p.Acquired(rand)) && p.Acquire(rand).Valid()
    ensures var port := p.Acquired(rand);
      var q := p.Acquire(rand).Mark(port, now);
      && q == p.(available := p.available[port - p.first := false], unavailable := p.unavailable[port := now])
      && q.Valid() && FreeCount(q.available) < FreeCount(p.available)
  {
    AcquireCosts(p, rand);
    MarkIsFree(p.Acquire(rand), p.Acquired(rand), now);
    var port := p.Acquired(rand);
    assert p.Acquire(rand).available == p.available[port - p.first := false];
    assert p.available[port - p.first := false][port - p.first := false] == p.available[port - p.first := false];
  }

  /** The bind loop, turn by turn. */
  lemma {:induction false} BindLoopTries(g: Shared, l: Listener, attempts: nat -> Attempt, t: nat, low: nat, high: nat)
    requires g.ports.Valid() && l.sockid == -1
    requires forall t: nat :: low <= attempts(t).now <= high
    ensures var (port, h, c) := BindLoop(g, l, attempts, t);
      BoundFrom(g.ports, h.ports, Tried(g, l, attempts, t), port, low, high) && Listening(g.net, h.net, c, port)
    decreases FreeCount(g.ports.available)
  {
    hide BoundFrom, FreeCount, Ports.NextFree, Ports.Valid;
    var a := attempts(t);
    var (port, bound, h, c) := BindTurn(g, l, a);
    if port == -1 {
      NoTurn(g.ports, a.rand, low, high);
    } else {
      TurnMarks(g.ports, a.rand, a.now);
      if bound {
        GoodTurn(g.ports, h.ports, port, low, high);
      } else {
        BindLoopTries(h, c, attempts, t + 1, low, high);
        var (last, k, d) := BindLoop(h, c, attempts, t + 1);
        FailedTurn(g.ports, h.ports, port, a.now, k.ports, Tried(h, c, attempts, t + 1), last, low, high);
      }
    }
  }

  lemma NoTurn(p: Ports, rand: nat, low: nat, high: nat)
    requires p.Valid() && p.Acquired(rand) == -1
    ensures BoundFrom(p, p, {}, -1, low, high)
  {
    p.AcquireFindsFree(rand);
  }

  lemma GoodTurn(p: Ports, q: Ports, port: int, low: nat, high: nat)
    requires p.Valid() && p.Free(port) && port != -1 && q == p.(available := p.available[port - p.first := false])
    ensures BoundFrom(p, q, {port}, port, low, high)
  {
  }

  lemma FailedTurn(p: Ports, q: Ports, port: int, now: nat, r: Ports, tried: set<int>, last: int, low: nat, high: nat)
    requires p.Valid() && p.Free(port) && low <= now <= high
    requires q == p.(available := p.available[port - p.first := false], unavailable := p.unavailable[port := now])
    requires q.Valid() && BoundFrom(q, r, tried, last, low, high)
    ensures BoundFrom(p, r, {port} + tried, last, low, high)
  {
    assert q.Blocked(port) && !q.Free(port) && port !in tried;
    assert forall k :: k != port ==> q.Free(k) == p.Free(k) && q.Blocked(k) == p.Blocked(k);
    assert r.Blocked(port) && r.unavailable[port] == now;
  }

  // ---- conservation ----

  ghost predicate PortIn(slots: seq<Slot>, port: int) {
    exists i :: 0 <= i < |slots| && slots[i].On? && slots[i].port == port
  }

  ghost predicate SocketIn(slots: seq<Slot>, id: int) {
    exists i :: 0 <= i < |slots| && slots[i].On? && slots[i].sockid == id
  }

  /** The ports that are out are exactly those of the slots, each in one slot. */
  ghost predicate PortsHeld(p: Ports, slots: seq<Slot>) {
    && p.Valid()
    && (forall i :: 0 <= i < |slots| && slots[i].On? ==> p.Out(slots[i].port))
    && (forall i, k :: 0 <= i < k < |slots| && slots[i].On? && slots[k].On? ==> slots[i].port != slots[k].port)
    && (forall port :: p.Out(port) ==> PortIn(slots, port))
  }

  /** The listening sockets that are open are exactly those of the slots. */
  ghost predicate SocketsHeld(net: Net, slots: seq<Slot>) {
    && (forall i :: 0 <= i < |slots| && slots[i].On? ==>
      0 <= slots[i].sockid < net.next && slots[i].sockid in net.open && net.open[slots[i].sockid] == slots[i].port)
    && (forall id :: id in net.open ==> SocketIn(slots, id))
  }

  ghost predicate Conserved(g: Shared, slots: seq<Slot>) {
    PortsHeld(g.ports, slots) && SocketsHeld(g.net, slots)
  }

  lemma StillIn(slots: seq<Slot>, i: nat, s: Slot, port: int)
    requires i < |slots| && PortIn(slots, port) && (slots[i].On? ==> slots[i].port != port)
    ensures PortIn(slots[i := s], port)
  {
    var k :| 0 <= k < |slots| && slots[k].On? && slots[k].port == port;
    assert slots[i := s][k] == slots[k];
  }

  lemma StillOpen(slots: seq<Slot>, i: nat, s: Slot, id: int)
    requires i < |slots| && SocketIn(slots, id) && (slots[i].On? ==> slots[i].sockid != id)
    ensures SocketIn(slots[i := s], id)
  {
    var k :| 0 <= k < |slots| && slots[k].On? && slots[k].sockid == id;
    assert slots[i := s][k] == slots[k];
  }

  lemma ReleaseConserves(p: Ports, slots: seq<Slot>, i: nat)
    requires PortsHeld(p, slots) && i < |slots| && slots[i].On?
    ensures PortsHeld(p.Release(slots[i].port), slots[i := Idle])
  {
    var q, after := p.Release(slots[i].port), slots[i := Idle];
    ReleaseValid(p, slots[i].port);
    assert forall port :: q.Out(port) <==> p.Out(port) && port != slots[i].port;
    forall port | q.Out(port) ensures PortIn(after, port) {
      StillIn(slots, i, Idle, port);
    }
  }

  lemma CloseConserves(net: Net, slots: seq<Slot>, i: nat)
    requires SocketsHeld(net, slots) && i < |slots| && slots[i].On?
    requires forall i, k :: 0 <= i < k < |slots| && slots[i].On? && slots[k].On? ==> slots[i].port != slots[k].port
    ensures SocketsHeld(net.(open := net.open - {slots[i].sockid}), slots[i := Idle])
  {
    var open := net.open - {slots[i].sockid};
    forall id | id in open ensures SocketIn(slots[i := Idle], id) {
      StillOpen(slots, i, Idle, id);
    }
  }

  lemma VacateConserves(g: Shared, slots: seq<Slot>, i: nat)
    requires Conserved(g, slots) && i < |slots|
    ensures Conserved(Vacate(g, slots[i]), slots[i := Idle])
  {
    if slots[i] == Idle {
      assert slots[i := Idle] == slots;
    } else {
      ReleaseConserves(g.ports, slots, i);
      CloseConserves(g.net, slots, i);
    }
  }

  lemma AcquireConserves(p: Ports, slots: seq<Slot>, i: nat, q: Ports, tried: set<int>, port: int, id: int,
                         low: nat, high: nat)
    requires PortsHeld(p, slots) && i < |slots| && slots[i] == Idle && BoundFrom(p, q, tried, port, low, high)
    ensures PortsHeld(q, slots[i := if port == -1 then Idle else On(id, port)])
  {
    var s := if port == -1 then Idle else On(id, port);
    var after := slots[i := s];
    assert forall k :: p.Out(k) ==> k !in tried && q.Out(k);
    forall k | q.Out(k) ensures PortIn(after, k) {
      if k == port {
        assert after[i].port == k;
      } else {
        assert k !in tried && p.Out(k);
        StillIn(slots, i, s, k);
      }
    }
  }

  lemma ListenConserves(net: Net, slots: seq<Slot>, i: nat, port: int)
    requires SocketsHeld(net, slots) && i < |slots| && slots[i] == Idle
    ensures SocketsHeld(Net(net.next + 1, net.open[net.next as int := port]), slots[i := On(net.next, port)])
  {
    var after := slots[i := On(net.next, port)];
    forall id | id in net.open[net.next as int := port] ensures SocketIn(after, id) {
      if id == net.next {
        assert after[i].sockid == id;
      } else {
        StillOpen(slots, i, On(net.next, port), id);
      }
    }
  }

  // ---- activating a pool ----

  /** The ports an activation of the pool tries. */
  ghost function PoolTried(g: Shared, ss: seq<Session>, attempts: nat -> Attempt): set<int>
    requires g.ports.Valid()
  {
    DropAllValid(g, ss);
    var (h, dropped) := DropAll(g, ss);
    var i := FirstInactive(dropped);
    Tried(h, if i < |dropped| then dropped[i].listener else NEW_SESSION.listener, attempts, 0)
  }

  /** How the pool of sessions changes: those active stay as they are, and a session is added exactly when
      every one was active. */
  ghost predicate PoolGrew(ss: seq<Session>, tt: seq<Session>) {
    && |ss| <= |tt| <= |ss| + 1
    && (forall j :: 0 <= j < |ss| && ss[j].state == ACTIVE ==> tt[j] == ss[j])
    && (|tt| == |ss| + 1 <==> forall j :: 0 <= j < |ss| ==> ss[j].state == ACTIVE)
  }

  lemma {:induction false} NoneInactive(ss: seq<Session>, j: nat)
    requires FirstInactive(ss) == |ss| && j < |ss|
    ensures ss[j].state != INACTIVE
  {
    if j > 0 {
      NoneInactive(ss[1..], j - 1);
    }
  }

  lemma NewcomerOk(ss: seq<Session>, reported: set<int>)
    requires PoolOk(ss, reported) && SlotOf(ss) == Idle
    ensures PoolOk(ss + [NEW_SESSION], reported) && SlotOf(ss + [NEW_SESSION]) == Idle
  {
    var tt := ss + [NEW_SESSION];
    SlotIdle(ss);
    SlotIdle(tt);
    assert forall j :: 0 <= j < |ss| ==> tt[j] == ss[j];
    assert tt[|ss|] == NEW_SESSION && SessionOk(NEW_SESSION, reported);
  }

  /** The pool once its listeners are dropped, with an idle session to activate. */
  function Readied(dropped: seq<Session>): seq<Session> {
    if FirstInactive(dropped) < |dropped| then dropped else dropped + [NEW_SESSION]
  }

  lemma ReadiedOk(g: Shared, ss: seq<Session>, reported: set<int>)
    requires PoolOk(ss, reported)
    ensures var dd := DropAll(g, ss).1;
      var pool := Readied(dd);
      PoolOk(pool, reported) && SlotOf(pool) == Idle && PoolGrew(ss, pool)
      && FirstInactive(dd) < |pool| && pool[FirstInactive(dd)].state == INACTIVE
  {
    DropAllVacates(g, ss, reported);
    var dd := DropAll(g, ss).1;
    if FirstInactive(dd) == |dd| {
      forall j | 0 <= j < |dd| ensures ss[j].state == ACTIVE && dd[j] == ss[j] {
        NoneInactive(dd, j);
      }
      NewcomerOk(dd, reported);
    } else {
      assert ss[FirstInactive(dd)].state != ACTIVE;
    }
  }

  /** An activation gives the pool's slot up and, when a bind succeeds, takes one on the port returned. */
  lemma PoolActivates(g: Shared, ss: seq<Session>, attempts: nat -> Attempt, reported: set<int>, low: nat, high: nat)
    requires g.ports.Valid() && PoolOk(ss, reported)
    requires forall t: nat :: low <= attempts(t).now <= high
    ensures var (port, k, tt) := PoolActivate(g, ss, attempts);
      var h := Vacate(g, SlotOf(ss));
      && h.ports.Valid() && BoundFrom(h.ports, k.ports, PoolTried(g, ss, attempts), port, low, high)
      && k.net == (if port == -1 then h.net else Net(h.net.next + 1, h.net.open[h.net.next as int := port]))
      && SlotOf(tt) == (if port == -1 then Idle else On(h.net.next, port))
      && PoolOk(tt, reported) && PoolGrew(ss, tt)
  {
    hide BoundFrom, DropAll, SlotOf, BindLoop;
    DropAllValid(g, ss);
    DropAllVacates(g, ss, reported);
    ReadiedOk(g, ss, reported);
    var (h, dd) := DropAll(g, ss);
    var i := FirstInactive(dd);
    var pool := Readied(dd);
    assert SessionOk(pool[i], reported);
    BindLoopTries(h, pool[i].listener, attempts, 0, low, high);
    var (port, k, s) := Activate(h, pool[i], attempts);
    OneChanged(pool, reported, i, s);
  }

  // ---- what every run keeps ----

  /** The slots of the pools. */
  ghost function Slots(w: World): (r: seq<Slot>)
    ensures |r| == |w.pools| && forall i :: 0 <= i < |r| ==> r[i] == SlotOf(w.pools[i].sessions)
  {
    seq(|w.pools|, i requires 0 <= i < |w.pools| => SlotOf(w.pools[i].sessions))
  }

  /** Sessions never outnumber the most that were active at once by more than one. */
  ghost predicate Bounded(p: Pool) {
    |p.sessions| <= p.most + 1 && ActiveCount(p.sessions) <= p.most
  }

  ghost predicate BlockedBy(p: Ports, clock: nat) {
    forall port <- p.unavailable :: p.unavailable[port] <= clock
  }

  ghost predicate Inv(w: World) {
    && Conserved(w.g, Slots(w))
    && (forall i :: 0 <= i < |w.pools| ==> PoolOk(w.pools[i].sessions, w.reported) && Bounded(w.pools[i]))
    && BlockedBy(w.g.ports, w.clock)
  }

  lemma InitialInv(w: World)
    requires Initial(w)
    ensures Inv(w)
  {
  }

  /** One pool changes. */
  lemma PoolChanged(w: World, i: nat, g: Shared, ss: seq<Session>, clock: nat)
    requires Inv(w) && i < |w.pools| && PoolOk(ss, w.reported)
    requires |ss| <= w.pools[i].most + 1
    requires Conserved(g, Slots(w)[i := SlotOf(ss)]) && BlockedBy(g.ports, clock)
    ensures Inv(WithPool(w, i, g, ss).(clock := clock))
  {
    var v := WithPool(w, i, g, ss).(clock := clock);
    assert Slots(v) == Slots(w)[i := SlotOf(ss)];
  }

  lemma {:induction false} AllActive(ss: seq<Session>)
    requires forall j :: 0 <= j < |ss| ==> ss[j].state == ACTIVE
    ensures ActiveCount(ss) == |ss|
  {
    if ss != [] {
      AllActive(ss[1..]);
    }
  }

  lemma BoundTimes(p: Ports, q: Ports, tried: set<int>, port: int, low: nat, high: nat)
    requires BoundFrom(p, q, tried, port, low, high) && BlockedBy(p, low) && low <= high
    ensures BlockedBy(q, high)
  {
    forall k <- q.unavailable ensures q.unavailable[k] <= high {
      assert q.Blocked(k);
      assert k !in tried ==> p.Blocked(k);
    }
  }

  lemma ActivatedKeeps(w: World, i: nat, attempts: nat -> Attempt, until: nat)
    requires Inv(w) && Enabled(w, Activated(i, attempts, until))
    ensures Inv(Step(w, Activated(i, attempts, until)))
  {
    hide BoundFrom, SocketsHeld, PoolActivate;
    var ss := w.pools[i].sessions;
    var (port, k, tt) := PoolActivate(w.g, ss, attempts);
    PoolActivates(w.g, ss, attempts, w.reported, w.clock, until);
    var slots, h := Slots(w), Vacate(w.g, SlotOf(ss));
    VacateConserves(w.g, slots, i);
    var freed := slots[i := Idle];
    AcquireConserves(h.ports, freed, i, k.ports, PoolTried(w.g, ss, attempts), port, h.net.next, w.clock, until);
    if port != -1 {
      ListenConserves(h.net, freed, i, port);
    }
    BoundTimes(h.ports, k.ports, PoolTried(w.g, ss, attempts), port, w.clock, until);
    assert freed[i := SlotOf(tt)] == slots[i := SlotOf(tt)];
    if |tt| == |ss| + 1 {
      AllActive(ss);
    }
    PoolChanged(w, i, k, tt, until);
  }

  lemma DisconnectedKeeps(w: World, i: nat)
    requires Inv(w) && Enabled(w, Disconnected(i))
    ensures Inv(Step(w, Disconnected(i)))
  {
    var ss := w.pools[i].sessions;
    DisconnectVacates(w.g, ss, w.reported);
    VacateConserves(w.g, Slots(w), i);
    var (g, tt) := PoolDisconnect(w.g, ss);
    PoolChanged(w, i, g, tt, w.clock);
  }

  /** A session that is not awaiting changes into another that is not: the ports are as they were. */
  lemma QuietChange(w: World, i: nat, j: nat, s: Session)
    requires Inv(w) && At(w, i, j) && SessionOk(s, w.reported)
    requires s.state != AWAITING_PASV && w.pools[i].sessions[j].state != AWAITING_PASV
    ensures Inv(WithSession(w, i, j, w.g, s))
  {
    var ss := w.pools[i].sessions;
    OneChanged(ss, w.reported, j, s);
    assert Slots(w)[i := SlotOf(ss[j := s])] == Slots(w);
    PoolChanged(w, i, w.g, ss[j := s], w.clock);
  }

  lemma ReportedKeeps(w: World, id: int)
    requires Inv(w)
    ensures Inv(w.(reported := w.reported + {id}))
  {
    var v := w.(reported := w.reported + {id});
    assert Slots(v) == Slots(w);
    forall i | 0 <= i < |w.pools| ensures PoolOk(v.pools[i].sessions, v.reported) {
      MoreReported(w.pools[i].sessions, w.reported, id);
    }
  }

  lemma AcceptedKeeps(w: World, i: nat, j: nat, newsockid: nat)
    requires Inv(w) && Enabled(w, Accepted(i, j, newsockid))
    ensures Inv(Step(w, Accepted(i, j, newsockid)))
  {
    var ss := w.pools[i].sessions;
    var (g, s) := PasvConnected(w.g, ss[j], newsockid);
    assert SessionOk(ss[j], w.reported);
    SlotAt(ss, j);
    OneChanged(ss, w.reported, j, s);
    VacateConserves(w.g, Slots(w), i);
    DiallingKeeps(Vacate(w.g, SlotOf(ss)), Slots(w)[i := Idle]);
    PoolChanged(w, i, g, ss[j := s], w.clock);
  }

  lemma DiallingKeeps(g: Shared, slots: seq<Slot>)
    requires Conserved(g, slots)
    ensures Conserved(g.(net := g.net.(next := g.net.next + 1)), slots)
  {
  }

  /** Failures and ends of connections, and notices of failed binds. */
  lemma ConnectionKeeps(w: World, e: Event)
    requires Inv(w) && Enabled(w, e) && (e.ConnectFailed? || e.PasvEnded? || e.PortEnded?)
    ensures Inv(Step(w, e))
  {
    var s := w.pools[e.i].sessions[e.j];
    assert SessionOk(s, w.reported);
    var id := if e.ConnectFailed? then s.portid else e.id;
    ReportedKeeps(w, id);
    var v := w.(reported := w.reported + {id});
    var t := if e.ConnectFailed? then PortConnectFailure(s)
             else if e.PasvEnded? then PasvClosed(s, e.id) else PortClosed(s, e.id);
    if t == s {
      SameSession(v, e.i, e.j);
    } else {
      QuietChange(v, e.i, e.j, t);
    }
  }

  lemma SameSession(w: World, i: nat, j: nat)
    requires Inv(w) && At(w, i, j)
    ensures Inv(WithSession(w, i, j, w.g, w.pools[i].sessions[j]))
  {
    var ss := w.pools[i].sessions;
    assert ss[j := ss[j]] == ss && Slots(w)[i := SlotOf(ss)] == Slots(w);
    PoolChanged(w, i, w.g, ss, w.clock);
  }

  lemma NoticeKeeps(w: World, i: nat, j: nat)
    requires Inv(w) && At(w, i, j)
    ensures Inv(Step(w, BindNotice(i, j)))
  {
    var ss := w.pools[i].sessions;
    var s := ss[j].(listener := ListenFailed(ss[j].listener));
    assert SessionOk(ss[j], w.reported);
    if s.state == AWAITING_PASV {
      SlotAt(ss, j);
    }
    OneChanged(ss, w.reported, j, s);
    assert Slots(w)[i := SlotOf(ss[j := s])] == Slots(w);
    PoolChanged(w, i, w.g, ss[j := s], w.clock);
  }

  lemma TickedKeeps(w: World, now: nat)
    requires Inv(w) && w.clock <= now
    ensures Inv(Step(w, Ticked(now)))
  {
    var p, q := w.g.ports, w.g.ports.Tick(now);
    assert q.Valid() && forall port :: q.Out(port) <==> p.Out(port);
    assert PortsHeld(q, Slots(w));
    assert Slots(Step(w, Ticked(now))) == Slots(w);
  }

  lemma StepKeeps(w: World, e: Event)
    requires Inv(w) && Enabled(w, e)
    ensures Inv(Step(w, e))
  {
    hide Inv;
    match e
    case Opened => OpenedKeeps(w);
    case Activated(i, attempts, until) => ActivatedKeeps(w, i, attempts, until);
    case Disconnected(i) => DisconnectedKeeps(w, i);
    case Accepted(i, j, newsockid) => AcceptedKeeps(w, i, j, newsockid);
    case ConnectFailed(_, _) => ConnectionKeeps(w, e);
    case PasvEnded(_, _, _) => ConnectionKeeps(w, e);
    case PortEnded(_, _, _) => ConnectionKeeps(w, e);
    case BindNotice(i, j) => NoticeKeeps(w, i, j);
    case Ticked(now) => TickedKeeps(w, now);
  }

  lemma InLonger(slots: seq<Slot>, port: int)
    requires PortIn(slots, port)
    ensures PortIn(slots + [Idle], port)
  {
    var i :| 0 <= i < |slots| && slots[i].On? && slots[i].port == port;
    assert (slots + [Idle])[i] == slots[i];
  }

  lemma OpenLonger(slots: seq<Slot>, id: int)
    requires SocketIn(slots, id)
    ensures SocketIn(slots + [Idle], id)
  {
    var i :| 0 <= i < |slots| && slots[i].On? && slots[i].sockid == id;
    assert (slots + [Idle])[i] == slots[i];
  }

  lemma IdleAdded(g: Shared, slots: seq<Slot>)
    requires Conserved(g, slots)
    ensures Conserved(g, slots + [Idle])
  {
    hide PortIn, SocketIn;
    forall port | g.ports.Out(port) ensures PortIn(slots + [Idle], port) {
      InLonger(slots, port);
    }
    forall id | id in g.net.open ensures SocketIn(slots + [Idle], id) {
      OpenLonger(slots, id);
    }
  }

  lemma OpenedKeeps(w: World)
    requires Inv(w)
    ensures Inv(w.(pools := w.pools + [Pool([], 0)]))
  {
    hide Conserved;
    var v := w.(pools := w.pools + [Pool([], 0)]);
    IdleAdded(w.g, Slots(w));
    assert Slots(v) == Slots(w) + [Idle];
  }

  lemma {:induction false} RunKeeps(w: World, es: seq<Event>, v: World)
    requires Inv(w) && Runs(w, es, v)
    ensures Inv(v)
    decreases |es|
  {
    if es != [] {
      StepKeeps(w, es[0]);
      RunKeeps(Step(w, es[0]), es[1..], v);
    }
  }
}
