/** What the runs of the traffic-bounce sessions guarantee: no port leaks or is shared, the blocks last as
    long as they should, and ports run out only when there really are none. */
module BounceGuarantees {
  import opened ListenPorts
  import opened Bounce
  import opened BounceRuns

  ghost predicate Awaiting(w: World, i: nat, j: nat, port: int) {
    At(w, i, j) && w.pools[i].sessions[j].state == AWAITING_PASV && w.pools[i].sessions[j].listener.port == port
  }

  ghost predicate Held(w: World, port: int) { exists i: nat, j: nat :: Awaiting(w, i, j, port) }

  /** The slot of a pool is the awaiting session of the pool. */
  lemma SlotIsAwaiting(w: World, i: nat)
    requires Inv(w) && i < |w.pools|
    ensures SlotOf(w.pools[i].sessions).On? ==>
      exists j: nat :: Awaiting(w, i, j, SlotOf(w.pools[i].sessions).port)
    ensures forall j: nat, port: int :: Awaiting(w, i, j, port) ==>
      SlotOf(w.pools[i].sessions) == On(w.pools[i].sessions[j].listener.sockid, port)
  {
    var ss := w.pools[i].sessions;
    assert PoolOk(ss, w.reported);
    if SlotOf(ss) != Idle {
      var j := SlotHolder(ss);
      SlotAt(ss, j);
      assert Awaiting(w, i, j, SlotOf(ss).port);
    }
    forall j: nat, port | Awaiting(w, i, j, port)
      ensures SlotOf(ss) == On(ss[j].listener.sockid, port)
    {
      SlotAt(ss, j);
    }
  }

  /** Whatever has happened so far, a port of the range is exactly one of free, blocked, or the listen port of
      a session awaiting its connection, and then of that session alone. */
  lemma EveryPortOnce(w: World, es: seq<Event>, v: World, port: int)
    requires Initial(w) && Runs(w, es, v) && v.g.ports.InRange(port)
    ensures v.g.ports.Free(port) ==> !v.g.ports.Blocked(port) && !Held(v, port)
    ensures v.g.ports.Blocked(port) ==> !Held(v, port)
    ensures v.g.ports.Free(port) || v.g.ports.Blocked(port) || Held(v, port)
    ensures forall i: nat, j: nat, k: nat, l: nat ::
      Awaiting(v, i, j, port) && Awaiting(v, k, l, port) ==> i == k && j == l
  {
    InitialInv(w);
    RunKeeps(w, es, v);
    var slots := Slots(v);
    forall i: nat | i < |v.pools| { SlotIsAwaiting(v, i); }
    if Held(v, port) {
      var i: nat, j: nat :| Awaiting(v, i, j, port);
      assert slots[i].On? && slots[i].port == port;
    }
    if v.g.ports.Out(port) {
      var i :| 0 <= i < |slots| && slots[i].On? && slots[i].port == port;
      SlotIsAwaiting(v, i);
    }
    forall i: nat, j: nat, k: nat, l: nat | Awaiting(v, i, j, port) && Awaiting(v, k, l, port)
      ensures i == k && j == l
    {
      assert slots[i].On? && slots[i].port == port && slots[k].On? && slots[k].port == port;
      assert PoolOk(v.pools[i].sessions, v.reported);
    }
  }

  /** No port is ever handed out that a session still listens on, and every listening socket still open
      belongs to a session that awaits its connection. */
  lemma ListenersMatchSessions(w: World, es: seq<Event>, v: World, i: nat, j: nat)
    requires Initial(w) && Runs(w, es, v) && At(v, i, j)
    ensures var s := v.pools[i].sessions[j];
      (s.state == AWAITING_PASV ==>
         s.listener.sockid in v.g.net.open && v.g.net.open[s.listener.sockid] == s.listener.port)
      && (s.state != AWAITING_PASV ==> s.listener.sockid == -1)
    ensures forall id :: id in v.g.net.open ==> exists k: nat, l: nat ::
      Awaiting(v, k, l, v.g.net.open[id]) && v.pools[k].sessions[l].listener.sockid == id
  {
    InitialInv(w);
    RunKeeps(w, es, v);
    var s, slots := v.pools[i].sessions[j], Slots(v);
    assert SessionOk(s, v.reported);
    SlotIsAwaiting(v, i);
    if s.state == AWAITING_PASV {
      assert Awaiting(v, i, j, s.listener.port) && slots[i].On?;
    }
    forall id | id in v.g.net.open
      ensures exists k: nat, l: nat ::
        Awaiting(v, k, l, v.g.net.open[id]) && v.pools[k].sessions[l].listener.sockid == id
    {
      var k :| 0 <= k < |slots| && slots[k].On? && slots[k].sockid == id;
      SlotIsAwaiting(v, k);
      var l: nat :| Awaiting(v, k, l, slots[k].port);
    }
  }

  /** A pool listens through at most one session, and has at most one session more than were ever active at
      once. */
  lemma PoolBound(w: World, es: seq<Event>, v: World, i: nat)
    requires Initial(w) && Runs(w, es, v) && i < |v.pools|
    ensures |v.pools[i].sessions| <= v.pools[i].most + 1
    ensures forall j: nat, l: nat, p: int, q: int :: Awaiting(v, i, j, p) && Awaiting(v, i, l, q) ==> j == l
  {
    InitialInv(w);
    RunKeeps(w, es, v);
    assert PoolOk(v.pools[i].sessions, v.reported);
  }

  /** Activating leaves every active session of every pool alone. */
  lemma ActivePassedOver(w: World, i: nat, attempts: nat -> Attempt, until: nat, k: nat, j: nat)
    requires Inv(w) && Enabled(w, Activated(i, attempts, until))
    requires At(w, k, j) && w.pools[k].sessions[j].state == ACTIVE
    ensures var v := Step(w, Activated(i, attempts, until));
      At(v, k, j) && v.pools[k].sessions[j] == w.pools[k].sessions[j]
  {
    PoolActivates(w.g, w.pools[i].sessions, attempts, w.reported, w.clock, until);
  }

  // ---- how long a block lasts ----

  /** None of the activations tries the port. */
  ghost predicate NeverTried(w: World, es: seq<Event>, port: int)
    decreases |es|
  {
    es == [] ||
    (w.g.ports.Valid() && Enabled(w, es[0])
     && (es[0].Activated? ==> port !in PoolTried(w.g, w.pools[es[0].i].sessions, es[0].attempts))
     && NeverTried(Step(w, es[0]), es[1..], port))
  }

  lemma VacateLeavesBlocks(w: World, i: nat, port: int)
    requires Inv(w) && i < |w.pools| && w.g.ports.Blocked(port)
    ensures var p := Vacate(w.g, SlotOf(w.pools[i].sessions)).ports;
      p.Valid() && p.Blocked(port) && p.unavailable[port] == w.g.ports.unavailable[port] && !p.Free(port)
  {
    assert Slots(w)[i].On? ==> w.g.ports.Out(Slots(w)[i].port);
    VacateConserves(w.g, Slots(w), i);
  }

  lemma StepLeavesBlocks(w: World, e: Event, port: int)
    requires Inv(w) && Enabled(w, e) && w.g.ports.Blocked(port)
    requires Step(w, e).clock <= w.g.ports.unavailable[port] + BLOCK_SECONDS
    ensures var p := Step(w, e).g.ports;
      p.Blocked(port) && p.unavailable[port] == w.g.ports.unavailable[port]
    ensures e.Activated? ==> port !in PoolTried(w.g, w.pools[e.i].sessions, e.attempts)
    ensures w.clock <= Step(w, e).clock
  {
    match e
    case Activated(i, attempts, until) =>
      VacateLeavesBlocks(w, i, port);
      PoolActivates(w.g, w.pools[i].sessions, attempts, w.reported, w.clock, until);
    case Disconnected(i) =>
      VacateLeavesBlocks(w, i, port);
      DisconnectVacates(w.g, w.pools[i].sessions, w.reported);
    case Accepted(i, j, newsockid) =>
      var ss := w.pools[i].sessions;
      assert PoolOk(ss, w.reported);
      SlotAt(ss, j);
      VacateLeavesBlocks(w, i, port);
    case _ =>
  }

  lemma {:induction false} ClockGoesOn(w: World, es: seq<Event>, v: World)
    requires Inv(w) && Runs(w, es, v)
    ensures w.clock <= v.clock
    decreases |es|
  {
    if es != [] {
      StepKeeps(w, es[0]);
      ClockGoesOn(Step(w, es[0]), es[1..], v);
    }
  }

  /** A port blocked at some time is neither tried nor unblocked until an hour after that time has passed,
      whatever happens in between. */
  lemma {:induction false} BlockLasts(w: World, es: seq<Event>, v: World, port: int)
    requires Inv(w) && Runs(w, es, v) && w.g.ports.Blocked(port)
    requires v.clock <= w.g.ports.unavailable[port] + 3600
    ensures NeverTried(w, es, port)
    ensures v.g.ports.Blocked(port) && v.g.ports.unavailable[port] == w.g.ports.unavailable[port]
    decreases |es|
  {
    if es != [] {
      var u := Step(w, es[0]);
      StepKeeps(w, es[0]);
      ClockGoesOn(u, es[1..], v);
      StepLeavesBlocks(w, es[0], port);
      BlockLasts(u, es[1..], v, port);
    }
  }

  /** And it ends with the first tick later than that. */
  lemma BlockEnds(w: World, now: nat, port: int)
    requires Inv(w) && w.clock <= now && w.g.ports.Blocked(port)
    ensures Step(w, Ticked(now)).g.ports.Free(port) <==> w.g.ports.unavailable[port] + 3600 < now
  {
    assert w.g.ports.InRange(port);
  }

  // ---- when ports run out ----

  /** The port an activation of pool i returns. */
  ghost function Returned(w: World, i: nat, attempts: nat -> Attempt): int
    requires i < |w.pools| && w.g.ports.Valid()
  {
    PoolActivate(w.g, w.pools[i].sessions, attempts).0
  }

  /** Held by a session of another pool. */
  ghost predicate HeldElsewhere(w: World, i: nat, port: int) {
    exists k: nat, j: nat :: k != i && Awaiting(w, k, j, port)
  }

  lemma ElsewhereIsOut(w: World, i: nat, port: int)
    requires Inv(w) && i < |w.pools|
    ensures HeldElsewhere(w, i, port) <==> Vacate(w.g, SlotOf(w.pools[i].sessions)).ports.Out(port)
  {
    VacateConserves(w.g, Slots(w), i);
    var freed := Slots(w)[i := Idle];
    var p := Vacate(w.g, SlotOf(w.pools[i].sessions)).ports;
    if HeldElsewhere(w, i, port) {
      var k: nat, j: nat :| k != i && Awaiting(w, k, j, port);
      SlotIsAwaiting(w, k);
      assert freed[k].On? && freed[k].port == port;
    }
    if p.Out(port) {
      var k :| 0 <= k < |freed| && freed[k].On? && freed[k].port == port;
      assert k != i;
      SlotIsAwaiting(w, k);
    }
  }

  /** With every bind succeeding, an activation fails exactly when each port of the range is blocked or held
      by a session of another control connection. */
  lemma ExhaustedWhen(w: World, i: nat, attempts: nat -> Attempt, until: nat)
    requires Inv(w) && Enabled(w, Activated(i, attempts, until)) && forall t: nat :: attempts(t).bound
    ensures Returned(w, i, attempts) == -1 <==>
      forall port :: w.g.ports.InRange(port) ==> w.g.ports.Blocked(port) || HeldElsewhere(w, i, port)
  {
    var ss := w.pools[i].sessions;
    PoolActivates(w.g, ss, attempts, w.reported, w.clock, until);
    var h := Vacate(w.g, SlotOf(ss));
    FirstBindDecides(w.g, ss, attempts);
    DropAllVacates(w.g, ss, w.reported);
    hide PoolActivate, HeldElsewhere, BoundFrom;
    forall port | w.g.ports.InRange(port)
      ensures h.ports.Free(port) <==> !(w.g.ports.Blocked(port) || HeldElsewhere(w, i, port))
    {
      FreeOnceVacated(w, i, port);
    }
  }

  lemma FreeOnceVacated(w: World, i: nat, port: int)
    requires Inv(w) && i < |w.pools| && w.g.ports.InRange(port)
    ensures Vacate(w.g, SlotOf(w.pools[i].sessions)).ports.Free(port) <==>
      !(w.g.ports.Blocked(port) || HeldElsewhere(w, i, port))
  {
    ElsewhereIsOut(w, i, port);
    assert Slots(w)[i].On? ==> w.g.ports.Out(Slots(w)[i].port);
  }

  /** With every bind succeeding, the first port tried is returned. */
  lemma FirstBindDecides(g: Shared, ss: seq<Session>, attempts: nat -> Attempt)
    requires g.ports.Valid() && forall t: nat :: attempts(t).bound
    ensures PoolTried(g, ss, attempts) ==
      if PoolActivate(g, ss, attempts).0 == -1 then {} else {PoolActivate(g, ss, attempts).0}
    ensures DropAll(g, ss).0.ports.Valid()
    ensures PoolActivate(g, ss, attempts).0 == -1 <==> forall port :: !DropAll(g, ss).0.ports.Free(port)
  {
    DropAllValid(g, ss);
    DropAll(g, ss).0.ports.AcquireFindsFree(attempts(0).rand);
  }

  /** An activation that fails leaves nothing free: every port is blocked or held elsewhere. */
  lemma FailureMeansNone(w: World, i: nat, attempts: nat -> Attempt, until: nat, port: int)
    requires Inv(w) && Enabled(w, Activated(i, attempts, until))
    requires Returned(w, i, attempts) == -1 && w.g.ports.InRange(port)
    ensures Step(w, Activated(i, attempts, until)).g.ports.Blocked(port) || HeldElsewhere(w, i, port)
  {
    PoolActivates(w.g, w.pools[i].sessions, attempts, w.reported, w.clock, until);
    ElsewhereIsOut(w, i, port);
  }

  // ---- counting ----

  ghost function HeldPorts(slots: seq<Slot>): set<int> {
    set i | 0 <= i < |slots| && slots[i].On? :: slots[i].port
  }

  function OnCount(slots: seq<Slot>): (n: nat)
    ensures n <= |slots|
  {
    if slots == [] then 0 else (if slots[0].On? then 1 else 0) + OnCount(slots[1..])
  }

  lemma {:induction false} HeldCount(slots: seq<Slot>)
    requires forall i, k :: 0 <= i < k < |slots| && slots[i].On? && slots[k].On? ==> slots[i].port != slots[k].port
    ensures |HeldPorts(slots)| == OnCount(slots)
  {
    if slots == [] {
      assert HeldPorts(slots) == {};
    } else {
      var rest := slots[1..];
      HeldCount(rest);
      assert forall i :: 1 <= i < |slots| ==> slots[i] == rest[i - 1];
      assert forall i :: 0 <= i < |rest| ==> rest[i] == slots[i + 1];
      if slots[0].On? {
        assert HeldPorts(slots) == {slots[0].port} + HeldPorts(rest);
        assert slots[0].port !in HeldPorts(rest);
      } else {
        assert HeldPorts(slots) == HeldPorts(rest);
      }
    }
  }

  lemma {:induction false} OnCountIdle(slots: seq<Slot>, i: nat)
    requires i < |slots| && slots[i] == Idle
    ensures OnCount(slots) < |slots|
    ensures OnCount(slots) == |slots| - 1 <==> forall k :: 0 <= k < |slots| && k != i ==> slots[k].On?
  {
    var rest := slots[1..];
    assert forall k :: 1 <= k < |slots| ==> slots[k] == rest[k - 1];
    assert forall k :: 0 <= k < |rest| ==> rest[k] == slots[k + 1];
    if i > 0 {
      OnCountIdle(rest, i - 1);
    } else {
      AllOn(rest);
    }
  }

  lemma {:induction false} AllOn(slots: seq<Slot>)
    ensures OnCount(slots) == |slots| <==> forall k :: 0 <= k < |slots| ==> slots[k].On?
  {
    if slots != [] {
      var rest := slots[1..];
      AllOn(rest);
      assert forall k :: 1 <= k < |slots| ==> slots[k] == rest[k - 1];
      assert forall k :: 0 <= k < |rest| ==> rest[k] == slots[k + 1];
    }
  }

  ghost function RangeOf(first: int, n: nat): (r: set<int>)
    ensures |r| == n && forall port :: port in r <==> first <= port < first + n
  {
    if n == 0 then {} else RangeOf(first, n - 1) + {first + n - 1}
  }

  lemma SubsetSize(a: set<int>, b: set<int>)
    requires a <= b
    ensures |a| <= |b| && (|a| == |b| ==> a == b)
  {
    assert b == a + (b - a);
  }

  /** The ports of the other pools' slots are the ports held elsewhere. */
  lemma HeldPortsElsewhere(w: World, i: nat, port: int)
    requires Inv(w) && i < |w.pools|
    ensures port in HeldPorts(Slots(w)[i := Idle]) <==> HeldElsewhere(w, i, port)
    ensures HeldElsewhere(w, i, port) ==> w.g.ports.InRange(port)
  {
    var freed := Slots(w)[i := Idle];
    VacateConserves(w.g, Slots(w), i);
    ElsewhereIsOut(w, i, port);
    if port in HeldPorts(freed) {
      var k :| 0 <= k < |freed| && freed[k].On? && freed[k].port == port;
    }
  }

  /** When no port is blocked and every bind succeeds, an activation fails exactly when the other pools hold as
      many ports as there are. */
  lemma ExhaustedByCount(w: World, i: nat, attempts: nat -> Attempt, until: nat)
    requires Inv(w) && Enabled(w, Activated(i, attempts, until)) && forall t: nat :: attempts(t).bound
    requires w.g.ports.unavailable == map[]
    ensures Returned(w, i, attempts) == -1 <==> OnCount(Slots(w)[i := Idle]) == |w.g.ports.available|
  {
    hide HeldElsewhere, Returned, Conserved, HeldPorts;
    var p, freed := w.g.ports, Slots(w)[i := Idle];
    var held := HeldPorts(freed);
    FreedDistinct(w, i);
    HeldCount(freed);
    ExhaustedWhen(w, i, attempts, until);
    forall port ensures port in held <==> HeldElsewhere(w, i, port)
                ensures port in held ==> p.InRange(port)
    {
      HeldPortsElsewhere(w, i, port);
    }
    Covering(p, held);
    assert forall port :: !p.Blocked(port);
  }

  lemma FreedDistinct(w: World, i: nat)
    requires Inv(w) && i < |w.pools|
    ensures var freed := Slots(w)[i := Idle];
      forall k, l :: 0 <= k < l < |freed| && freed[k].On? && freed[l].On? ==> freed[k].port != freed[l].port
  {
  }

  lemma Covering(p: Ports, held: set<int>)
    requires forall port <- held :: p.InRange(port)
    ensures |held| == |p.available| <==> forall port :: p.InRange(port) ==> port in held
  {
    var range := RangeOf(p.first, |p.available|);
    SubsetSize(held, range);
    if forall port :: p.InRange(port) ==> port in held {
      forall port <- range ensures port in held {
        assert p.InRange(port);
      }
      SubsetSize(range, held);
    }
  }

  /** All activations of a run bind at the first attempt. */
  ghost predicate AllBind(es: seq<Event>) {
    forall n :: 0 <= n < |es| && es[n].Activated? ==> forall t: nat :: es[n].attempts(t).bound
  }

  lemma ActivationBlocksNone(w: World, i: nat, attempts: nat -> Attempt, until: nat)
    requires Inv(w) && Enabled(w, Activated(i, attempts, until)) && w.g.ports.unavailable == map[]
    requires forall t: nat :: attempts(t).bound
    ensures var p := PoolActivate(w.g, w.pools[i].sessions, attempts).1.ports;
      p.unavailable == map[] && |p.available| == |w.g.ports.available|
  {
    hide PoolActivate, PoolTried, SocketsHeld;
    var ss := w.pools[i].sessions;
    PoolActivates(w.g, ss, attempts, w.reported, w.clock, until);
    FirstBindDecides(w.g, ss, attempts);
    var p := PoolActivate(w.g, ss, attempts).1.ports;
    var h := Vacate(w.g, SlotOf(ss)).ports;
    assert h.unavailable == map[];
    forall k ensures !p.Blocked(k) {
      assert !h.Blocked(k);
    }
    assert forall k :: k !in p.unavailable;
  }

  lemma StepBlocksNone(w: World, e: Event)
    requires Inv(w) && Enabled(w, e) && w.g.ports.unavailable == map[]
    requires e.Activated? ==> forall t: nat :: e.attempts(t).bound
    ensures Step(w, e).g.ports.unavailable == map[]
    ensures |Step(w, e).g.ports.available| == |w.g.ports.available|
  {
    match e
    case Activated(i, attempts, until) => ActivationBlocksNone(w, i, attempts, until);
    case Disconnected(i) => DisconnectVacates(w.g, w.pools[i].sessions, w.reported);
    case _ =>
  }

  /** As long as binds succeed and there are no more control connections than ports, no activation ever fails. */
  lemma {:induction false} NeverExhausted(w: World, es: seq<Event>, v: World,
                                          i: nat, attempts: nat -> Attempt, until: nat)
    requires Inv(w) && w.g.ports.unavailable == map[] && Runs(w, es, v) && AllBind(es)
    requires Enabled(v, Activated(i, attempts, until)) && forall t: nat :: attempts(t).bound
    requires |v.pools| <= |w.g.ports.available|
    ensures Inv(v) && Returned(v, i, attempts) != -1
    decreases |es|
  {
    if es == [] {
      OnCountIdle(Slots(v)[i := Idle], i);
      ExhaustedByCount(v, i, attempts, until);
    } else {
      StepKeeps(w, es[0]);
      StepBlocksNone(w, es[0]);
      assert AllBind(es[1..]) by {
        assert forall n :: 0 <= n < |es[1..]| ==> es[1..][n] == es[n + 1];
      }
      NeverExhausted(Step(w, es[0]), es[1..], v, i, attempts, until);
    }
  }

  /** One control connection more, and it fails as soon as all the others listen. */
  lemma OneTooMany(w: World, i: nat, attempts: nat -> Attempt, until: nat)
    requires Inv(w) && Enabled(w, Activated(i, attempts, until)) && forall t: nat :: attempts(t).bound
    requires w.g.ports.unavailable == map[] && |w.pools| == |w.g.ports.available| + 1
    ensures Returned(w, i, attempts) == -1 <==> forall k :: 0 <= k < |w.pools| && k != i ==> Slots(w)[k].On?
  {
    var freed := Slots(w)[i := Idle];
    OnCountIdle(freed, i);
    ExhaustedByCount(w, i, attempts, until);
    assert forall k :: 0 <= k < |w.pools| && k != i ==> freed[k] == Slots(w)[k];
  }

  // ---- events the code does not guard against ----

  /** An accept delivered to any session, whether it listens or not. */
  ghost function LateAccept(w: World, i: nat, j: nat, newsockid: nat): World
    requires At(w, i, j)
  {
    var (g, s) := PasvConnected(w.g, w.pools[i].sessions[j], newsockid);
    WithSession(w, i, j, g, s)
  }

  /** It keeps the ports straight exactly when the session is awaiting or its last port is not out: the handler
      releases that port without asking whose it is now. */
  lemma LateAcceptKeeps(w: World, i: nat, j: nat, newsockid: nat)
    requires Inv(w) && At(w, i, j)
    ensures var s := w.pools[i].sessions[j];
      Conserved(LateAccept(w, i, j, newsockid).g, Slots(LateAccept(w, i, j, newsockid))) <==>
      s.state == AWAITING_PASV || !w.g.ports.Out(s.listener.port)
  {
    var s := w.pools[i].sessions[j];
    if s.state == AWAITING_PASV {
      AcceptedKeeps(w, i, j, newsockid);
    } else {
      hide LateAccept, Slots;
      LateAcceptFrees(w, i, j, newsockid);
      FreedOut(w.g, LateAccept(w, i, j, newsockid).g, Slots(w), s.listener.port);
    }
  }

  /** Delivered to a session that does not listen, it releases the session's last port and nothing else. */
  lemma LateAcceptFrees(w: World, i: nat, j: nat, newsockid: nat)
    requires Inv(w) && At(w, i, j) && w.pools[i].sessions[j].state != AWAITING_PASV
    ensures var v, port := LateAccept(w, i, j, newsockid), w.pools[i].sessions[j].listener.port;
      && v.g == Shared(w.g.ports.Release(port), w.g.net.(next := w.g.net.next + 1)) && Slots(v) == Slots(w)
  {
    var ss, v := w.pools[i].sessions, LateAccept(w, i, j, newsockid);
    assert SessionOk(ss[j], w.reported);
    UnchangedSlot(ss, j, v.pools[i].sessions[j]);
    assert Slots(v) == Slots(w);
  }

  lemma FreedOut(g: Shared, h: Shared, slots: seq<Slot>, port: int)
    requires g.ports.Valid() && Conserved(g, slots)
    requires h == Shared(g.ports.Release(port), g.net.(next := g.net.next + 1))
    ensures Conserved(h, slots) <==> !g.ports.Out(port)
  {
    if g.ports.Out(port) {
      assert PortIn(slots, port) && h.ports.Free(port);
    } else {
      ReleaseValid(g.ports, port);
      assert forall k :: h.ports.Out(k) <==> g.ports.Out(k);
      DiallingKeeps(g, slots);
    }
  }

  /** And every blocked port stays blocked exactly when the session's last port is not a blocked one by now: else that
      port is unblocked before its hour is over. */
  lemma LateAcceptUnblocks(w: World, i: nat, j: nat, newsockid: nat)
    requires Inv(w) && At(w, i, j)
    ensures var port := w.pools[i].sessions[j].listener.port;
      (forall k :: w.g.ports.Blocked(k) ==> LateAccept(w, i, j, newsockid).g.ports.Blocked(k)) <==>
      !w.g.ports.Blocked(port)
  {
    var p, port := w.g.ports, w.pools[i].sessions[j].listener.port;
    assert LateAccept(w, i, j, newsockid).g.ports == p.Release(port);
    assert p.Blocked(port) ==> p.InRange(port) && !p.Release(port).Blocked(port);
  }

  lemma UnchangedSlot(ss: seq<Session>, j: nat, s: Session)
    requires j < |ss| && s.state != AWAITING_PASV && ss[j].state != AWAITING_PASV
    ensures SlotOf(ss[j := s]) == SlotOf(ss)
    decreases j
  {
    if j > 0 {
      assert ss[j := s][1..] == ss[1..][j - 1 := s];
      UnchangedSlot(ss[1..], j - 1, s);
    } else {
      assert ss[j := s][1..] == ss[1..];
    }
  }

  /** A connection failure delivered to any session. */
  ghost function LateFailure(w: World, i: nat, j: nat): World
    requires At(w, i, j)
  {
    WithSession(w, i, j, w.g, PortConnectFailure(w.pools[i].sessions[j]))
  }

  /** It keeps the ports straight exactly when the session is not awaiting; otherwise the port it listens on is
      lost: nobody releases it any more. */
  lemma LateFailureKeeps(w: World, i: nat, j: nat)
    requires Inv(w) && At(w, i, j)
    ensures var s, v := w.pools[i].sessions[j], LateFailure(w, i, j);
      (Conserved(v.g, Slots(v)) <==> s.state != AWAITING_PASV)
      && (s.state == AWAITING_PASV ==> v.g.ports.Out(s.listener.port) && !Held(v, s.listener.port))
  {
    var ss := w.pools[i].sessions;
    var s, v, slots := ss[j], LateFailure(w, i, j), Slots(w);
    var t := PortConnectFailure(s);
    assert SessionOk(s, w.reported);
    if s.state != AWAITING_PASV {
      UnchangedSlot(ss, j, t);
      assert Slots(v) == slots;
    } else {
      SlotAt(ss, j);
      OneChanged(ss, w.reported, j, s.(state := INACTIVE, listener := s.listener.(sockid := -1)));
      SlotIdle(ss[j := t]);
      assert v.pools[i].sessions == ss[j := t];
      assert Slots(v) == slots[i := Idle];
      assert !PortIn(Slots(v), s.listener.port);
      forall k: nat, l: nat ensures !Awaiting(v, k, l, s.listener.port) {
        if k != i && k < |w.pools| {
          SlotIsAwaiting(w, k);
          assert slots[k].On? ==> slots[k].port != slots[i].port;
          assert Awaiting(v, k, l, s.listener.port) == Awaiting(w, k, l, s.listener.port);
        } else if k == i {
          assert l < |ss| ==> v.pools[i].sessions[l].state != AWAITING_PASV;
        }
      }
    }
  }

  // ---- and runs that lead to them ----

  /** A pool that is empty, or holds one idle session, listens on the first port of the range. */
  lemma ListensFirst(g: Shared, ss: seq<Session>, attempts: nat -> Attempt)
    requires g.ports.Valid() && g.ports.available[0] && attempts(0).rand == 0 && attempts(0).bound
    requires ss == [] || (|ss| == 1 && ss[0].state == INACTIVE && ss[0].listener.sockid == -1)
    ensures var s := if ss == [] then NEW_SESSION else ss[0];
      PoolActivate(g, ss, attempts) ==
        (g.ports.first,
         Shared(g.ports.(available := g.ports.available[0 := false]),
                Net(g.net.next + 1, g.net.open[g.net.next as int := g.ports.first])),
         [s.(state := AWAITING_PASV, listener := Listener(g.net.next, g.ports.first, s.listener.failed))])
  {
    assert g.ports.Acquired(0) == g.ports.first;
    assert DropAll(g, ss) == (g, ss) by {
      if ss != [] {
        assert DropListener(g, ss[0]) == (g, ss[0]) && Each(g, ss[1..], DropListener) == (g, []);
        assert [ss[0]] + [] == ss;
      }
    }
    var s := if ss == [] then NEW_SESSION else ss[0];
    var (port, k, after) := Activate(g, s, attempts);
    assert port == g.ports.first;
    PoolActivated(g, ss, attempts, g, ss, port, k, [after]);
  }

  lemma RunsNowhere(w: World)
    ensures Runs(w, [], w)
  {
  }

  lemma RunsMore(w: World, es: seq<Event>, v: World, e: Event)
    requires Runs(w, es, v) && Inv(w) && Inv(v) && Enabled(v, e)
    ensures v.g.ports.Valid() && Runs(w, es + [e], Step(v, e)) && Inv(Step(v, e))
    decreases |es|
  {
    StepKeeps(v, e);
    if es == [] {
      assert Runs(Step(w, e), [], Step(v, e));
    } else {
      StepKeeps(w, es[0]);
      RunsMore(Step(w, es[0]), es[1..], v, e);
      assert (es + [e])[1..] == es[1..] + [e];
    }
  }

  /** From every start: one control connection listens, another is there, and a connection comes in that the
      listening session accepts. */
  lemma AcceptedRun(w: World, newsockid: nat) returns (es: seq<Event>, v: World)
    requires Initial(w)
    ensures Runs(w, es, v) && Inv(w) && Inv(v) && v.g.ports == w.g.ports
    ensures v.g.ports.available[0] && v.reported == w.reported && v.clock == w.clock
    ensures |v.pools| == 2 && v.pools[1].sessions == [] && |v.pools[0].sessions| == 1
    ensures var s := v.pools[0].sessions[0];
      s.state == ACTIVE && s.pasvid == newsockid && s.portid != -1 && s.listener == Listener(-1, w.g.ports.first, [])
  {
    hide Inv, Runs;
    InitialInv(w);
    var attempts := (t: nat) => Attempt(0, true, w.clock);
    es, v := [], w;
    RunsNowhere(w);
    RunsMore(w, es, v, Opened);
    es, v := es + [Opened], Step(v, Opened);
    RunsMore(w, es, v, Opened);
    es, v := es + [Opened], Step(v, Opened);
    RunsMore(w, es, v, Activated(0, attempts, w.clock));
    ListensFirst(v.g, [], attempts);
    es, v := es + [Activated(0, attempts, w.clock)], Step(v, Activated(0, attempts, w.clock));
    RunsMore(w, es, v, Accepted(0, 0, newsockid));
    es, v := es + [Accepted(0, 0, newsockid)], Step(v, Accepted(0, 0, newsockid));
    assert v.g.ports.available == w.g.ports.available;
    assert v.g.ports.unavailable == w.g.ports.unavailable;
  }

  /** Two accepts on one listener, of which the first is handled and its port given to the other connection: the
      second one releases that port although the other connection's session listens on it. */
  lemma SecondAccept(w: World, newsockid: nat, later: nat) returns (es: seq<Event>, v: World)
    requires Initial(w)
    ensures Runs(w, es, v) && Inv(v) && At(v, 0, 0)
    ensures var u, port := LateAccept(v, 0, 0, later), w.g.ports.first;
      Awaiting(u, 1, 0, port) && u.g.ports.Free(port) && !Conserved(u.g, Slots(u))
  {
    hide Inv, Runs, Conserved;
    es, v := AcceptedRun(w, newsockid);
    var attempts := (t: nat) => Attempt(0, true, w.clock);
    ListensFirst(v.g, [], attempts);
    RunsMore(w, es, v, Activated(1, attempts, w.clock));
    es, v := es + [Activated(1, attempts, w.clock)], Step(v, Activated(1, attempts, w.clock));
    LateAcceptKeeps(v, 0, 0, later);
  }

  /** A session whose passive side ends is activated again while the failure of its dialled connection is still
      queued: when that is handled, the session forgets the port it listens on, and nobody releases it. */
  lemma FailureAfterEnd(w: World, newsockid: nat) returns (es: seq<Event>, v: World)
    requires Initial(w) && newsockid !in w.reported
    ensures Runs(w, es, v) && Inv(v) && At(v, 0, 0)
    ensures var u, port := LateFailure(v, 0, 0), w.g.ports.first;
      Awaiting(v, 0, 0, port) && u.g.ports.Out(port) && !Held(u, port) && !Conserved(u.g, Slots(u))
  {
    hide Inv, Runs, Conserved;
    es, v := AcceptedRun(w, newsockid);
    var attempts := (t: nat) => Attempt(0, true, w.clock);
    RunsMore(w, es, v, PasvEnded(0, 0, newsockid));
    es, v := es + [PasvEnded(0, 0, newsockid)], Step(v, PasvEnded(0, 0, newsockid));
    ListensFirst(v.g, v.pools[0].sessions, attempts);
    RunsMore(w, es, v, Activated(0, attempts, w.clock));
    es, v := es + [Activated(0, attempts, w.clock)], Step(v, Activated(0, attempts, w.clock));
    LateFailureKeeps(v, 0, 0);
  }

  lemma {:induction false} NeverBound(g: Shared, l: Listener, attempts: nat -> Attempt, t: nat)
    requires g.ports.Valid() && forall t: nat :: !attempts(t).bound
    ensures BindLoop(g, l, attempts, t).0 == -1
    decreases FreeCount(g.ports.available)
  {
    hide FreeCount;
    var (port, bound, h, c) := BindTurn(g, l, attempts(t));
    if port != -1 {
      NeverBound(h, c, attempts, t + 1);
    }
  }

  lemma NoneReturned(w: World, i: nat, attempts: nat -> Attempt)
    requires i < |w.pools| && w.g.ports.Valid() && w.pools[i].sessions == [] && forall t: nat :: !attempts(t).bound
    ensures Returned(w, i, attempts) == -1
  {
    NeverBound(w.g, NEW_SESSION.listener, attempts, 0);
    assert DropAll(w.g, []) == (w.g, []);
  }

  /** Two accepts on one listener, of which the first is handled, and then no bind of the other connection succeeds:
      the second accept unblocks a port at the very moment it was blocked. */
  lemma UnblockedAtOnce(w: World, newsockid: nat, later: nat) returns (es: seq<Event>, v: World)
    requires Initial(w)
    ensures Runs(w, es, v) && Inv(v) && At(v, 0, 0)
    ensures var u, port := LateAccept(v, 0, 0, later), w.g.ports.first;
      v.g.ports.Blocked(port) && v.g.ports.unavailable[port] == v.clock && u.g.ports.Free(port) && u.clock == v.clock
  {
    hide Inv, Runs;
    es, v := AcceptedRun(w, newsockid);
    var attempts := (t: nat) => Attempt(0, false, w.clock);
    var e := Activated(1, attempts, w.clock);
    RunsMore(w, es, v, e);
    NoneReturned(v, 1, attempts);
    FailureMeansNone(v, 1, attempts, w.clock, w.g.ports.first);
    PoolActivates(v.g, [], attempts, v.reported, w.clock, w.clock);
    es, v := es + [e], Step(v, e);
  }
}
