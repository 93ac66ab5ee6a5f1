/** Traffic-bounce sessions as values: a listener on an allocated passive port, the connection it accepts
    and the connection to the other side, pooled for each control connection. */
module Bounce {
  import opened ListenPorts

  // ---- sessions as values ----

  /** The sockets this part of the program asks the I/O manager for: ids are never reused, and `open` are
      the listening sockets with their ports. */
  datatype Net = Net(next: nat, open: map<int, int>)

  datatype Listener = Listener(sockid: int, port: int, failed: seq<int>)

  datatype State = ACTIVE | AWAITING_PASV | INACTIVE

  /** A session: its state, its listener, and the socket ids of the passive and the active connection. */
  datatype Session = Session(state: State, listener: Listener, pasvid: int, portid: int)

  /** What the sessions share. */
  datatype Shared = Shared(ports: Ports, net: Net)

  /** The outside world during one turn of the bind loop: rand(), whether the bind succeeds, time(). */
  datatype Attempt = Attempt(rand: nat, bound: bool, now: nat)

  function CloseListener(net: Net, l: Listener): (Net, Listener) {
    if l.sockid == -1 then (net, l) else (net.(open := net.open - {l.sockid}), l.(sockid := -1))
  }

  function Listen(net: Net, l: Listener, port: int, bound: bool): (Net, Listener) {
    var (n, c) := CloseListener(net, l);
    if bound then (Net(n.next + 1, n.open[n.next as int := port]), c.(port := port, sockid := n.next))
    else (n, Listener(-1, port, c.failed + [port]))
  }

  /** One turn of the bind loop: the port tried, -1 when none is left, whether the bind succeeded, and
      what has become of the shared state and the listener. */
  function BindTurn(g: Shared, l: Listener, a: Attempt): (r: (int, bool, Shared, Listener))
    requires g.ports.Valid()
    ensures r.2.ports.Valid() && (r.1 ==> r.0 != -1)
    ensures r.0 != -1 && !r.1 ==> FreeCount(r.2.ports.available) < FreeCount(g.ports.available)
  {
    var port := g.ports.Acquired(a.rand);
    if port == -1 then (-1, false, g, l)
    else
      AcquireCosts(g.ports, a.rand);
      var ports := g.ports.Acquire(a.rand);
      var (net, c) := Listen(g.net, l, port, a.bound);
      MarkIsFree(ports, port, a.now);
      (port, a.bound, Shared(if a.bound then ports else ports.Mark(port, a.now), net), c)
  }

  /** The bind loop from its turn t on. Each failed bind takes one free port away. */
  function BindLoop(g: Shared, l: Listener, attempts: nat -> Attempt, t: nat): (int, Shared, Listener)
    requires g.ports.Valid()
    decreases FreeCount(g.ports.available)
  {
    var (port, bound, h, c) := BindTurn(g, l, attempts(t));
    if port == -1 || bound then (port, h, c) else BindLoop(h, c, attempts, t + 1)
  }

  lemma AcquireCosts(p: Ports, rand: nat)
    requires p.Valid() && p.Acquired(rand) != -1
    ensures p.Free(p.Acquired(rand)) && p.Acquire(rand).Valid()
    ensures FreeCount(p.Acquire(rand).available) == FreeCount(p.available) - 1
  {
    var pos := p.NextFree(rand % |p.available|, 0);
    FreeCountUpdate(p.available, pos, false);
  }

  lemma MarkIsFree(p: Ports, port: int, now: nat)
    requires p.Valid() && p.InRange(port) && !p.Free(port)
    ensures p.Mark(port, now).Valid() && p.Mark(port, now).available == p.available
  {
  }

  function Activate(g: Shared, s: Session, attempts: nat -> Attempt): (int, Shared, Session)
    requires g.ports.Valid()
  {
    var released := if s.state == AWAITING_PASV then g.(ports := g.ports.Release(s.listener.port)) else g;
    var (port, h, l) := BindLoop(released, s.listener, attempts, 0);
    (port, h, if port == -1 then s.(listener := l) else s.(state := AWAITING_PASV, listener := l))
  }

  function ReleaseIfAwaiting(g: Shared, s: Session): Shared {
    if s.state == AWAITING_PASV then g.(ports := g.ports.Release(s.listener.port)) else g
  }

  function Disconnect(g: Shared, s: Session): (Shared, Session) {
    var (net, l) := CloseListener(g.net, s.listener);
    (ReleaseIfAwaiting(g, s).(net := net), Session(INACTIVE, l, -1, -1))
  }

  function DropListener(g: Shared, s: Session): (Shared, Session) {
    if s.state != AWAITING_PASV then (g, s)
    else
      var (net, l) := CloseListener(g.net, s.listener);
      (Shared(g.ports.Release(s.listener.port), net), s.(state := INACTIVE, listener := l))
  }

  /** A connection is accepted: the other side is dialled, the port goes back, the listener is closed. */
  function PasvConnected(g: Shared, s: Session, newsockid: int): (Shared, Session) {
    var dialled := g.net.(next := g.net.next + 1);
    var (net, l) := CloseListener(dialled, s.listener);
    (Shared(g.ports.Release(s.listener.port), net), Session(ACTIVE, l, newsockid, g.net.next))
  }

  function PortConnectFailure(s: Session): Session { s.(state := INACTIVE, pasvid := -1) }

  /** The passive connection reports its end. Its socket id stays behind: the source clears a parameter. */
  function PasvClosed(s: Session, sockid: int): Session {
    if s.pasvid == -1 || s.pasvid != sockid then s else s.(state := INACTIVE, portid := -1)
  }

  function PortClosed(s: Session, sockid: int): Session {
    if s.portid == -1 || s.portid != sockid then s else s.(state := INACTIVE, portid := -1, pasvid := -1)
  }

  /** The notice of a failed bind: the oldest failed port is forgotten. */
  function ListenFailed(l: Listener): Listener {
    l.(failed := if l.failed == [] then [] else l.failed[1..])
  }

  /** An operation applied to the sessions of a pool one after the other. */
  function Each(g: Shared, ss: seq<Session>, op: (Shared, Session) -> (Shared, Session)): (r: (Shared, seq<Session>))
    ensures |r.1| == |ss|
    decreases |ss|
  {
    if ss == [] then (g, [])
    else
      var (h, s) := op(g, ss[0]);
      var (k, rest) := Each(h, ss[1..], op);
      (k, [s] + rest)
  }

  /** The first i sessions are done: h and cur are what the shared state and the pool are by then. */
  ghost predicate DoneUpTo(g: Shared, ss: seq<Session>, op: (Shared, Session) -> (Shared, Session),
                           i: nat, h: Shared, cur: seq<Session>) {
    && i <= |ss| == |cur|
    && cur[i..] == ss[i..]
    && Each(g, ss, op).0 == Each(h, ss[i..], op).0
    && Each(g, ss, op).1 == cur[..i] + Each(h, ss[i..], op).1
  }

  lemma DoneNone(g: Shared, ss: seq<Session>, op: (Shared, Session) -> (Shared, Session))
    ensures DoneUpTo(g, ss, op, 0, g, ss)
  {
    assert ss[0..] == ss;
  }

  lemma DoneNext(g: Shared, ss: seq<Session>, op: (Shared, Session) -> (Shared, Session),
                 i: nat, h: Shared, cur: seq<Session>)
    requires DoneUpTo(g, ss, op, i, h, cur) && i < |ss|
    ensures DoneUpTo(g, ss, op, i + 1, op(h, cur[i]).0, cur[i := op(h, cur[i]).1])
  {
    assert ss[i..][0] == cur[i..][0] && ss[i..][1..] == ss[i + 1..] && cur[i..][1..] == cur[i + 1..];
    assert cur[i := op(h, cur[i]).1][..i + 1] == cur[..i] + [op(h, cur[i]).1];
  }

  lemma DropNext(g: Shared, ss: seq<Session>, i: nat, h: Shared, cur: seq<Session>,
                 h': Shared, cur': seq<Session>)
    requires DoneUpTo(g, ss, DropListener, i, h, cur) && i < |ss|
    requires |cur'| == |cur| && DropListener(h, cur[i]) == (h', cur'[i]) && cur' == cur[i := cur'[i]]
    ensures DoneUpTo(g, ss, DropListener, i + 1, h', cur')
  {
    DoneNext(g, ss, DropListener, i, h, cur);
  }

  lemma DisconnectNext(g: Shared, ss: seq<Session>, i: nat, h: Shared, cur: seq<Session>,
                       h': Shared, cur': seq<Session>)
    requires DoneUpTo(g, ss, Disconnect, i, h, cur) && i < |ss|
    requires |cur'| == |cur| && Disconnect(h, cur[i]) == (h', cur'[i]) && cur' == cur[i := cur'[i]]
    ensures DoneUpTo(g, ss, Disconnect, i + 1, h', cur')
  {
    DoneNext(g, ss, Disconnect, i, h, cur);
  }

  lemma DoneAll(g: Shared, ss: seq<Session>, op: (Shared, Session) -> (Shared, Session),
                h: Shared, cur: seq<Session>)
    requires DoneUpTo(g, ss, op, |ss|, h, cur)
    ensures Each(g, ss, op) == (h, cur)
  {
    assert ss[|ss|..] == [] && cur[..|ss|] == cur;
    assert Each(g, ss, op).1 == cur;
  }

  function DropAll(g: Shared, ss: seq<Session>): (r: (Shared, seq<Session>))
    ensures |r.1| == |ss|
  {
    Each(g, ss, DropListener)
  }

  function FirstInactive(ss: seq<Session>): (i: nat)
    ensures i <= |ss| && (i < |ss| ==> ss[i].state == INACTIVE)
  {
    if ss == [] || ss[0].state == INACTIVE then 0 else 1 + FirstInactive(ss[1..])
  }

  /** What the search for an idle session has found among the first n sessions; |ss| stands for none. */
  ghost predicate PickedUpTo(ss: seq<Session>, n: nat, target: nat) {
    && (forall k :: 0 <= k < n && k < target && k < |ss| ==> ss[k].state != INACTIVE)
    && (target < |ss| ==> target < n && ss[target].state == INACTIVE)
  }

  lemma PickedNone(ss: seq<Session>)
    ensures PickedUpTo(ss, 0, |ss|)
  {
  }

  /** The search goes one session on; only that session may have changed. */
  lemma PickedNext(ss: seq<Session>, tt: seq<Session>, n: nat, target: nat)
    requires n < |ss| == |tt| && tt == ss[n := tt[n]] && target <= |ss| && PickedUpTo(ss, n, target)
    ensures PickedUpTo(tt, n + 1, if target == |ss| && tt[n].state == INACTIVE then n else target)
  {
  }

  lemma {:induction false} PickedIsFirst(ss: seq<Session>, target: nat)
    requires target <= |ss| && PickedUpTo(ss, |ss|, target)
    ensures FirstInactive(ss) == target
  {
    if target > 0 {
      assert forall k :: 0 <= k < |ss| - 1 ==> ss[1..][k] == ss[k + 1];
      assert ss[0].state != INACTIVE;
      PickedIsFirst(ss[1..], target - 1);
    }
  }

  const NEW_SESSION := Session(INACTIVE, Listener(-1, -1, []), -1, -1)

  function PoolActivate(g: Shared, ss: seq<Session>, attempts: nat -> Attempt): (int, Shared, seq<Session>)
    requires g.ports.Valid()
  {
    DropAllValid(g, ss);
    var (h, dropped) := DropAll(g, ss);
    var i := FirstInactive(dropped);
    var pool := if i < |dropped| then dropped else dropped + [NEW_SESSION];
    var (port, k, s) := Activate(h, pool[i], attempts);
    (port, k, pool[i := s])
  }

  /** The outcome of the pool's activate, put together from its steps. */
  lemma PoolActivated(g: Shared, ss: seq<Session>, attempts: nat -> Attempt,
                      h: Shared, dropped: seq<Session>, port: int, k: Shared, after: seq<Session>)
    requires g.ports.Valid() && h.ports.Valid() && DropAll(g, ss) == (h, dropped)
    requires var i := FirstInactive(dropped);
      var pool := if i < |dropped| then dropped else dropped + [NEW_SESSION];
      |after| == |pool| && Activate(h, pool[i], attempts) == (port, k, after[i]) && after == pool[i := after[i]]
    ensures PoolActivate(g, ss, attempts) == (port, k, after)
  {
    assert PoolActivate(g, ss, attempts).2 == after;
  }

  function PoolDisconnect(g: Shared, ss: seq<Session>): (r: (Shared, seq<Session>))
    ensures |r.1| == |ss|
  {
    Each(g, ss, Disconnect)
  }

  lemma ReleaseValid(p: Ports, port: int)
    requires p.Valid()
    ensures p.Release(port).Valid()
  {
  }

  lemma {:induction false} DropAllValid(g: Shared, ss: seq<Session>)
    requires g.ports.Valid()
    ensures DropAll(g, ss).0.ports.Valid()
    decreases |ss|
  {
    if ss != [] {
      ReleaseValid(g.ports, ss[0].listener.port);
      DropAllValid(DropListener(g, ss[0]).0, ss[1..]);
    }
  }
}
