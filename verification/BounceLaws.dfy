/** The life of a traffic-bounce session over the events of a run: idle, listening, active, and idle again. */
module BounceLaws {
  import opened ListenPorts
  import opened Bounce
  import opened BounceRuns
  import G = BounceGuarantees

  /** Nothing but session j of pool i has changed, as far as sessions go. */
  ghost predicate OnlySession(w: World, v: World, i: nat, j: nat) {
    && At(w, i, j) && At(v, i, j) && |v.pools| == |w.pools|
    && (forall k :: 0 <= k < |w.pools| && k != i ==> v.pools[k] == w.pools[k])
    && |v.pools[i].sessions| == |w.pools[i].sessions|
    && forall k :: 0 <= k < |w.pools[i].sessions| && k != j ==> v.pools[i].sessions[k] == w.pools[i].sessions[k]
  }

  /** An accept makes the awaiting session active, with the connection that came in and a new one to whom it bounces;
      its port goes back and its listening socket is closed. */
  lemma AcceptLaw(w: World, i: nat, j: nat, newsockid: nat)
    requires Inv(w) && Enabled(w, Accepted(i, j, newsockid))
    ensures var v := Step(w, Accepted(i, j, newsockid));
      && OnlySession(w, v, i, j)
      && var s, r := w.pools[i].sessions[j], v.pools[i].sessions[j];
        && r.state == ACTIVE && r.pasvid == newsockid && r.portid == w.g.net.next && v.g.net.next == w.g.net.next + 1
        && v.g.ports.Free(s.listener.port) && s.listener.sockid !in v.g.net.open && r.listener.sockid == -1
        && (forall id :: id in v.g.net.open <==> id in w.g.net.open && id != s.listener.sockid)
        && (forall port :: port != s.listener.port ==>
             v.g.ports.Free(port) == w.g.ports.Free(port) && v.g.ports.Blocked(port) == w.g.ports.Blocked(port))
  {
    var s := w.pools[i].sessions[j];
    assert SessionOk(s, w.reported);
    SlotAt(w.pools[i].sessions, j);
    assert w.g.ports.Out(Slots(w)[i].port);
  }

  /** The end of a connection of an active session. */
  predicate Ends(w: World, i: nat, j: nat, e: Event)
    requires At(w, i, j)
  {
    var s := w.pools[i].sessions[j];
    s.state == ACTIVE &&
    (e == PasvEnded(i, j, s.pasvid) || e == PortEnded(i, j, s.portid) || e == ConnectFailed(i, j))
  }

  /** Once the end of either connection of an active session is reported, or its dialling has failed, that session is
      idle; no other session, and no port, changes with it. */
  lemma EndOfTransfer(w: World, i: nat, j: nat, e: Event)
    requires Inv(w) && At(w, i, j) && Enabled(w, e) && Ends(w, i, j, e)
    ensures var v := Step(w, e);
      OnlySession(w, v, i, j) && v.pools[i].sessions[j].state == INACTIVE && v.g == w.g
  {
    assert SessionOk(w.pools[i].sessions[j], w.reported);
  }

  /** The end of any other connection changes no session. */
  lemma StrangersEnd(w: World, i: nat, j: nat, e: Event)
    requires Inv(w) && Enabled(w, e) && At(w, i, j) && w.pools[i].sessions[j].state == ACTIVE && !Ends(w, i, j, e)
    requires (e.PasvEnded? || e.PortEnded?) && e.i == i && e.j == j
    ensures Step(w, e).pools[i].sessions == w.pools[i].sessions && Step(w, e).g == w.g
  {
    assert w.pools[i].sessions[j := w.pools[i].sessions[j]] == w.pools[i].sessions;
  }

  /** An activation adds a session to its pool exactly when every session there is active, and changes no other pool. */
  lemma AddsWhenBusy(w: World, i: nat, attempts: nat -> Attempt, until: nat)
    requires Inv(w) && Enabled(w, Activated(i, attempts, until))
    ensures var v, ss := Step(w, Activated(i, attempts, until)), w.pools[i].sessions;
      && |v.pools[i].sessions| == |ss| + (if forall k :: 0 <= k < |ss| ==> ss[k].state == ACTIVE then 1 else 0)
      && forall k :: 0 <= k < |w.pools| && k != i ==> v.pools[k] == w.pools[k]
  {
    PoolActivates(w.g, w.pools[i].sessions, attempts, w.reported, w.clock, until);
  }

  /** So a session whose transfer has ended is used again: the next activation adds none. */
  lemma UsedAgain(w: World, i: nat, j: nat, e: Event, attempts: nat -> Attempt, until: nat)
    requires Inv(w) && At(w, i, j) && Enabled(w, e) && Ends(w, i, j, e)
    requires Enabled(Step(w, e), Activated(i, attempts, until))
    ensures Inv(Step(w, e))
    ensures |Step(Step(w, e), Activated(i, attempts, until)).pools[i].sessions| == |w.pools[i].sessions|
  {
    StepKeeps(w, e);
    hide Step, Enabled;
    EndOfTransfer(w, i, j, e);
    AddsWhenBusy(Step(w, e), i, attempts, until);
  }

  lemma {:induction false} AllIdle(g: Shared, ss: seq<Session>, j: nat)
    requires j < |ss|
    ensures var r := PoolDisconnect(g, ss).1[j];
      r.state == INACTIVE && r.listener.sockid == -1 && r.pasvid == -1 && r.portid == -1
    decreases |ss|
  {
    if j > 0 {
      AllIdle(Disconnect(g, ss[0]).0, ss[1..], j - 1);
    }
  }

  /** Once a control connection is gone its sessions are idle and have no sockets, and the port one of them listened
      on is free. */
  lemma GoneLaw(w: World, i: nat)
    requires Inv(w) && i < |w.pools|
    ensures var v := Step(w, Disconnected(i));
      && |v.pools[i].sessions| == |w.pools[i].sessions|
      && (forall j :: 0 <= j < |v.pools[i].sessions| ==>
           var r := v.pools[i].sessions[j];
           r.state == INACTIVE && r.listener.sockid == -1 && r.pasvid == -1 && r.portid == -1)
      && (forall j: nat, port :: G.Awaiting(w, i, j, port) ==> v.g.ports.Free(port))
      && (forall k :: 0 <= k < |w.pools| && k != i ==> v.pools[k] == w.pools[k])
  {
    var ss := w.pools[i].sessions;
    var (g, tt) := PoolDisconnect(w.g, ss);
    forall j | 0 <= j < |tt|
      ensures tt[j].state == INACTIVE && tt[j].listener.sockid == -1 && tt[j].pasvid == -1 && tt[j].portid == -1
    {
      AllIdle(w.g, ss, j);
    }
    DisconnectVacates(w.g, ss, w.reported);
    forall j: nat, port | G.Awaiting(w, i, j, port) ensures g.ports.Free(port) {
      SlotAt(ss, j);
      assert Slots(w)[i] == On(ss[j].listener.sockid, port);
    }
  }

  /** A notice of a failed bind changes nothing but the list of ports that failed, whose oldest entry it takes. */
  lemma NoticeLaw(w: World, i: nat, j: nat)
    requires Inv(w) && At(w, i, j)
    ensures var v := Step(w, BindNotice(i, j));
      && OnlySession(w, v, i, j) && v.g == w.g
      && var s, r := w.pools[i].sessions[j], v.pools[i].sessions[j];
        && r == s.(listener := r.listener) && r.listener == s.listener.(failed := r.listener.failed)
        && (s.listener.failed != [] ==> s.listener.failed == [s.listener.failed[0]] + r.listener.failed)
        && (s.listener.failed == [] ==> r.listener.failed == [])
  {
  }

  /** A bind that fails blocks the port tried, has it listed as failed, and leaves no listening socket. */
  lemma FailedBindLaw(g: Shared, l: Listener, a: Attempt)
    requires g.ports.Valid() && !a.bound && g.ports.Acquired(a.rand) != -1
    ensures var (port, bound, h, c) := BindTurn(g, l, a);
      && !bound && port == g.ports.Acquired(a.rand) && h.ports.Blocked(port) && h.ports.unavailable[port] == a.now
      && c.sockid == -1 && (l.sockid != -1 ==> l.sockid !in h.net.open) && c.failed == l.failed + [port]
  {
    AcquireCosts(g.ports, a.rand);
  }

  /** Activating a session that still listens is giving its port back and activating it as an idle one. */
  lemma ActivatedAnew(g: Shared, s: Session, attempts: nat -> Attempt)
    requires g.ports.Valid() && s.state == AWAITING_PASV
    ensures var (port, h, r) := Activate(g, s, attempts);
      var freed := g.(ports := g.ports.Release(s.listener.port));
      freed.ports.Valid() && var (port', h', r') := Activate(freed, s.(state := INACTIVE), attempts);
      port == port' && h == h' && r.listener == r'.listener && (port != -1 ==> r == r')
  {
    ReleaseValid(g.ports, s.listener.port);
  }
}
