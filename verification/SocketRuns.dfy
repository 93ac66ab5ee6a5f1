/** Runs of the I/O manager: any sequence of its operations, in any order the outside allows. */
module SocketRuns {
  import opened DataBlocks
  import opened SocketTable

  datatype Op =
    | OpClient(listenimmediately: bool)
    | OpListener(ty: SocketType, fd: int)
    | OpAccepted(fd: int)
    | OpRegisterAccepted(id: int, listenimmediately: bool)
    | OpConnecting(id: int, fd: int)
    | OpConnected(id: int)
    | OpQueued(id: int, more: seq<DataBlock>)
    | OpFlushed(id: int, rest: seq<DataBlock>)
    | OpDrained(id: int)
    | OpClose(id: int)
    | OpCloseLater(id: int)
    | OpNegotiate(id: int, ty: SocketType)
    | OpNegotiatedOut(id: int, done: bool)
    | OpNegotiatedIn(id: int)
    | OpLowered(id: int)
    | OpAutoPause(id: int)
    | OpPause(id: int)
    | OpResume(id: int)
    | OpReady(after: Table)
    | OpTick

  /** When an operation can happen: new descriptors are new, and handlers run for sockets of their type. */
  ghost predicate Offered(t: Table, op: Op) {
    match op
    case OpClient(_) => true
    case OpListener(ty, fd) => NewFD(t, fd) && ty in {EXTERNAL, UDP, TCP_SERVER, TCP_SERVER_EXTERNAL}
    case OpAccepted(fd) => NewFD(t, fd)
    case OpRegisterAccepted(_, _) => true
    case OpConnecting(id, fd) => id in t.sockets && t.sockets[id].ty == TCP_RESOLVING && NewFD(t, fd)
    case OpConnected(id) => id in t.sockets && t.sockets[id].ty == TCP_CONNECTING
    case OpQueued(id, _) => id in t.sockets
    case OpFlushed(id, rest) => id in t.sockets && (t.sockets[id].sendqueue == [] ==> rest == [])
    case OpDrained(id) => id in t.sockets && t.sockets[id].sendqueue == [] && Established(t.sockets[id].ty)
    case OpClose(_) => true
    case OpCloseLater(_) => true
    case OpNegotiate(_, ty) => ty == TCP_SSL_NEG_CONNECT || ty == TCP_SSL_NEG_ACCEPT
    case OpNegotiatedOut(id, _) =>
      id in t.sockets && t.sockets[id].ty in {TCP_SSL_NEG_CONNECT, TCP_SSL_NEG_ACCEPT}
    case OpNegotiatedIn(id) =>
      id in t.sockets && t.sockets[id].ty in {TCP_SSL_NEG_REDO_CONNECT, TCP_SSL_NEG_REDO_ACCEPT}
    case OpLowered(id) => id in t.sockets
    case OpAutoPause(id) => id in t.sockets
    case OpPause(_) => true
    case OpResume(_) => true
    case OpReady(after) => ReadyFor(t, t.auto, after)
    case OpTick => true
  }

  /** The two operations that can lose the agreement, where they do not: neither is used on a descriptor watched the
      other way already, nor a receiver registered for a socket that is not open or waits for output. */
  predicate Harmless(t: Table, op: Op) {
    match op
    case OpRegisterAccepted(id, listenimmediately) => Registrable(t, id, listenimmediately)
    case OpNegotiate(id, _) => !(Negotiable(t, id) && WatchedEarly(t, id))
    case _ => true
  }

  ghost predicate Possible(t: Table, op: Op) { Offered(t, op) && Harmless(t, op) }

  function Apply(t: Table, op: Op): Table
    requires Offered(t, op)
  {
    match op
    case OpClient(listenimmediately) => RegisterClient(t, listenimmediately)
    case OpListener(ty, fd) => RegisterListener(t, ty, fd)
    case OpAccepted(fd) => Accepted(t, fd)
    case OpRegisterAccepted(id, listenimmediately) => RegisterAccepted(t, id, listenimmediately)
    case OpConnecting(id, fd) => Connecting(t, id, fd)
    case OpConnected(id) => Connected(t, id)
    case OpQueued(id, more) => Queued(t, id, more)
    case OpFlushed(id, rest) => Flushed(t, id, rest)
    case OpDrained(id) => Redirect(t, id, IN)
    case OpClose(id) => Close(t, id)
    case OpCloseLater(id) => CloseLater(t, id)
    case OpNegotiate(id, ty) => Negotiate(t, id, ty)
    case OpNegotiatedOut(id, done) => NegotiatedOut(t, id, done)
    case OpNegotiatedIn(id) => NegotiatedIn(t, id)
    case OpLowered(id) => Lowered(t, id)
    case OpAutoPause(id) => AutoPaused(t, id)
    case OpPause(id) => ManuallyPaused(t, id)
    case OpResume(id) => Resumed(t, id)
    case OpReady(after) => after.(auto := {})
    case OpTick => Tick(t)
  }

  ghost predicate Reaches(t: Table, ops: seq<Op>, u: Table)
    decreases |ops|
  {
    if ops == [] then t == u else Possible(t, ops[0]) && Reaches(Apply(t, ops[0]), ops[1..], u)
  }

  /** An operation keeps the agreement exactly when it is harmless. */
  lemma ApplyKeeps(t: Table, op: Op)
    requires Agree(t) && Offered(t, op)
    ensures Agree(Apply(t, op)) <==> Harmless(t, op)
  {
    hide Agree, Registrable, Negotiable, WatchedEarly;
    match op
    case OpClient(listenimmediately) => RegisterClientKeeps(t, listenimmediately);
    case OpListener(ty, fd) => RegisterListenerKeeps(t, ty, fd);
    case OpAccepted(fd) => AcceptedKeeps(t, fd);
    case OpRegisterAccepted(id, listenimmediately) => RegisterAcceptedKeeps(t, id, listenimmediately);
    case OpConnecting(id, fd) => ConnectingKeeps(t, id, fd);
    case OpConnected(id) => ConnectedKeeps(t, id);
    case OpQueued(id, more) => QueuedKeeps(t, id, more);
    case OpFlushed(id, rest) => FlushedKeeps(t, id, rest);
    case OpDrained(id) => DrainedKeeps(t, id);
    case OpClose(id) => CloseKeeps(t, id);
    case OpCloseLater(id) => CloseLaterKeeps(t, id);
    case OpNegotiate(id, ty) => NegotiateKeeps(t, id, ty);
    case OpNegotiatedOut(id, done) => NegotiatedOutKeeps(t, id, done);
    case OpNegotiatedIn(id) => NegotiatedInKeeps(t, id);
    case OpLowered(id) => LoweredKeeps(t, id);
    case OpAutoPause(id) => AutoPauseKeeps(t, id);
    case OpPause(id) => ManualPauseKeeps(t, id);
    case OpResume(id) => ResumeKeeps(t, id);
    case OpReady(after) => ReadyKeeps(t, after);
    case OpTick => TickKeeps(t);
  }

  lemma {:induction false} ReachesKeeps(t: Table, ops: seq<Op>, u: Table)
    requires Agree(t) && Reaches(t, ops, u)
    ensures Agree(u)
    decreases |ops|
  {
    hide Agree;
    if ops != [] {
      ApplyKeeps(t, ops[0]);
      ReachesKeeps(Apply(t, ops[0]), ops[1..], u);
    }
  }

  const EMPTY := Table(map[], map[], {}, {}, map[], 0)

  /** In every state that harmless operations lead to a socket is paused exactly when it is auto-paused or paused by
      hand; the two sets and the timers hold nothing but open sockets, the timers exactly the resolving and the
      connecting ones; what is watched is not paused and watched in its recorded direction; what should be watched
      is; and an established socket with output pending waits for output. */
  lemma AlwaysAgrees(ops: seq<Op>, t: Table, id: int)
    requires Reaches(EMPTY, ops, t)
    ensures id in t.auto + t.manual ==> id in t.sockets
    ensures id in t.timers <==> id in t.sockets && ConnectingType(t.sockets[id].ty)
    ensures id in t.timers ==> 0 <= t.timers[id] < CONNECT_TIMEOUT_MS
    ensures id in t.sockets ==>
      var s := t.sockets[id];
      && (s.paused <==> id in t.auto || id in t.manual)
      && (s.fd in t.polled ==> !s.paused && t.polled[s.fd] == Poll(s.direction, id))
      && (s.receiver && s.listenimmediately && s.fd >= 0 && !s.paused ==> s.fd in t.polled)
      && (s.ty in {TCP_PLAIN, TCP_PLAIN_LISTEN, TCP_SSL} && s.sendqueue != [] ==> s.direction == OUT)
    ensures forall fd <- t.polled :: exists k :: k in t.sockets && t.sockets[k].fd == fd && t.polled[fd].id == k
  {
    EmptyAgrees();
    ReachesKeeps(EMPTY, ops, t);
    if id in t.sockets {
      assert Fits(t, id);
    }
    forall fd <- t.polled ensures exists k :: k in t.sockets && t.sockets[k].fd == fd && t.polled[fd].id == k {
      var k := t.polled[fd].id;
      assert k in t.sockets && t.sockets[k].fd == fd;
    }
  }

  // ---- the connect timers over runs ----

  /** The socket's name is resolved, which resets its timer. */
  predicate Connects(op: Op, id: int) { op.OpConnecting? && op.id == id }

  function TicksIn(ops: seq<Op>): nat {
    if ops == [] then 0 else (if ops[0].OpTick? then 1 else 0) + TicksIn(ops[1..])
  }

  /** The operations that can change the timers. */
  predicate Times(op: Op) {
    op.OpTick? || op.OpClient? || op.OpConnecting? || op.OpConnected? || op.OpClose? || op.OpCloseLater?
  }

  lemma TimersKept(t: Table, op: Op)
    requires Possible(t, op) && !Times(op)
    ensures Apply(t, op).timers == t.timers
  {
    hide AddFD, SetFD, NewFD;
  }

  lemma TimedStep(t: Table, op: Op, id: int)
    requires Agree(t) && Possible(t, op) && Times(op) && id in t.timers && id in Apply(t, op).timers
    ensures Apply(t, op).timers[id] ==
      if op.OpTick? then t.timers[id] + TICKPERIOD
      else if Connects(op, id) then 0
      else t.timers[id]
  {
    hide Agree, AddFD, SetFD, NewFD, Tick;
    TimerRuns(t, id);
    if op.OpTick? {
      TickedTimer(t, id);
    }
  }

  /** No other operation than the tick advances a timer, and only the start of the connection resets it. */
  lemma TimerStep(t: Table, op: Op, id: int)
    requires Agree(t) && Possible(t, op) && id in t.timers && id in Apply(t, op).timers
    ensures Apply(t, op).timers[id] ==
      if op.OpTick? then t.timers[id] + TICKPERIOD
      else if Connects(op, id) then 0
      else t.timers[id]
  {
    hide Agree, Offered, Harmless, Apply;
    if Times(op) {
      TimedStep(t, op, id);
    } else {
      TimersKept(t, op);
    }
  }

  lemma NextGrows(t: Table, op: Op)
    requires Possible(t, op)
    ensures t.next <= Apply(t, op).next
  {
    hide AddFD, SetFD, NewFD;
  }

  lemma GoneTimed(t: Table, op: Op, id: int)
    requires Agree(t) && Possible(t, op) && Times(op) && id !in t.timers && id < t.next
    ensures id !in Apply(t, op).timers
  {
    hide AddFD, SetFD, NewFD;
  }

  /** A timer goes with its socket or its connection, and ids are not given out again. */
  lemma GoneStep(t: Table, op: Op, id: int)
    requires Agree(t) && Possible(t, op) && id !in t.timers && id < t.next
    ensures id !in Apply(t, op).timers && id < Apply(t, op).next
  {
    hide Agree, Offered, Harmless, Apply;
    NextGrows(t, op);
    if Times(op) {
      GoneTimed(t, op, id);
    } else {
      TimersKept(t, op);
    }
  }

  lemma {:induction false} StaysGone(t: Table, ops: seq<Op>, u: Table, id: int)
    requires Agree(t) && Reaches(t, ops, u) && id !in t.timers && id < t.next
    ensures id !in u.timers
    decreases |ops|
  {
    hide Agree;
    if ops != [] {
      ApplyKeeps(t, ops[0]);
      GoneStep(t, ops[0], id);
      StaysGone(Apply(t, ops[0]), ops[1..], u, id);
    }
  }

  /** However the operations of all sockets are mixed, a timer that is still there has seen every tick since it
      was last reset, and fewer than fifty of them. */
  lemma {:induction false} TimerAdvances(t: Table, ops: seq<Op>, u: Table, id: int)
    requires Agree(t) && Reaches(t, ops, u) && id in t.timers && id in u.timers
    requires forall op <- ops :: !Connects(op, id)
    ensures u.timers[id] == t.timers[id] + TICKPERIOD * TicksIn(ops) && TicksIn(ops) < 50
    decreases |ops|
  {
    hide Agree, Apply, Offered, Harmless;
    ReachesKeeps(t, ops, u);
    TimerRuns(t, id);
    TimerRuns(u, id);
    if ops != [] {
      var v := Apply(t, ops[0]);
      ApplyKeeps(t, ops[0]);
      if id !in v.timers {
        NextGrows(t, ops[0]);
        StaysGone(v, ops[1..], u, id);
      }
      TimerStep(t, ops[0], id);
      TimerAdvances(v, ops[1..], u, id);
    }
  }

  /** Whether an operation can end a socket's timer, or reset it. */
  predicate Touches(op: Op, id: int) {
    match op
    case OpConnecting(k, _) => k == id
    case OpConnected(k) => k == id
    case OpClose(k) => k == id
    case OpCloseLater(k) => k == id
    case _ => false
  }

  lemma SparedTimed(t: Table, op: Op, id: int)
    requires Agree(t) && Possible(t, op) && Times(op) && id in t.timers && !Touches(op, id)
    ensures id in Apply(t, op).timers <==> !op.OpTick? || t.timers[id] + TICKPERIOD < CONNECT_TIMEOUT_MS
  {
    hide Agree, AddFD, SetFD, NewFD, Tick;
    TimerRuns(t, id);
    if op.OpTick? {
      TickedTimer(t, id);
    }
  }

  lemma SparedStep(t: Table, op: Op, id: int)
    requires Agree(t) && Possible(t, op) && id in t.timers && !Touches(op, id)
    ensures id in Apply(t, op).timers <==> !op.OpTick? || t.timers[id] + TICKPERIOD < CONNECT_TIMEOUT_MS
  {
    hide Agree, Offered, Harmless, Apply;
    if Times(op) {
      SparedTimed(t, op, id);
    } else {
      TimersKept(t, op);
    }
  }

  /** A timer that no operation on its socket ends or resets is there exactly until the ticks have used it up:
      one that has just been reset goes with the fiftieth. */
  lemma {:induction false} TimesOut(t: Table, ops: seq<Op>, u: Table, id: int)
    requires Agree(t) && Reaches(t, ops, u) && id in t.timers && forall op <- ops :: !Touches(op, id)
    ensures id in u.timers <==> t.timers[id] + TICKPERIOD * TicksIn(ops) < CONNECT_TIMEOUT_MS
    ensures t.timers[id] == 0 ==> (id in u.timers <==> TicksIn(ops) < 50)
    decreases |ops|
  {
    hide Agree, Apply, Offered, Harmless;
    TimerRuns(t, id);
    if ops != [] {
      var v := Apply(t, ops[0]);
      ApplyKeeps(t, ops[0]);
      SparedStep(t, ops[0], id);
      if id in v.timers {
        TimerStep(t, ops[0], id);
        TimesOut(v, ops[1..], u, id);
      } else {
        NextGrows(t, ops[0]);
        StaysGone(v, ops[1..], u, id);
      }
    }
  }

  /** What is left of a socket's time: a second period while its name is being resolved. */
  function TimeLeft(t: Table, id: int): int
    requires id in t.timers && id in t.sockets
  {
    (if t.sockets[id].ty == TCP_RESOLVING then 2 else 1) * CONNECT_TIMEOUT_MS - t.timers[id]
  }

  lemma ApplyTick(t: Table)
    requires Possible(t, OpTick)
    ensures Apply(t, OpTick) == Tick(t)
  {
  }

  lemma ReadyTypes(t: Table, op: Op)
    requires op.OpReady? && Possible(t, op)
    ensures forall id <- t.sockets :: id in Apply(t, op).sockets && Apply(t, op).sockets[id].ty == t.sockets[id].ty
  {
    forall id | id in t.sockets ensures id in op.after.sockets && op.after.sockets[id].ty == t.sockets[id].ty {
      assert id in op.after.sockets.Keys;
    }
  }

  predicate Opens(op: Op) {
    op.OpClient? || op.OpListener? || op.OpAccepted? || op.OpRegisterAccepted? || op.OpConnecting? || op.OpConnected?
  }

  lemma OpenType(t: Table, op: Op, id: int)
    requires Opens(op) && Possible(t, op) && id in t.sockets && id < t.next && id in Apply(t, op).timers
    ensures id in Apply(t, op).sockets
    ensures Apply(t, op).sockets[id].ty == if Connects(op, id) then TCP_CONNECTING else t.sockets[id].ty
    ensures Connects(op, id) ==> t.sockets[id].ty == TCP_RESOLVING
  {
    hide AddFD, SetFD, NewFD, Due;
  }

  predicate Pauses(op: Op) {
    op.OpLowered? || op.OpAutoPause? || op.OpPause? || op.OpResume? || op.OpClose? || op.OpCloseLater?
  }

  lemma PausedType(t: Table, op: Op, id: int)
    requires Pauses(op) && Possible(t, op) && id in t.sockets && id in Apply(t, op).timers
    ensures id in Apply(t, op).sockets && Apply(t, op).sockets[id].ty == t.sockets[id].ty
  {
    hide AddFD, SetFD;
  }

  lemma OpenedType(t: Table, op: Op, id: int)
    requires !Opens(op) && !Pauses(op) && !op.OpTick? && !op.OpReady? && Possible(t, op)
    requires id in t.sockets && ConnectingType(t.sockets[id].ty)
    ensures id in Apply(t, op).sockets && Apply(t, op).sockets[id].ty == t.sockets[id].ty
  {
    hide AddFD, SetFD;
  }

  lemma TypeStep(t: Table, op: Op, id: int)
    requires Agree(t) && Possible(t, op) && id in t.timers && id in Apply(t, op).timers
    ensures id in t.sockets && id in Apply(t, op).sockets
    ensures Apply(t, op).sockets[id].ty == if Connects(op, id) then TCP_CONNECTING else t.sockets[id].ty
    ensures Connects(op, id) ==> t.sockets[id].ty == TCP_RESOLVING
  {
    hide Agree, Tick, Offered, Harmless, Apply;
    TimerRuns(t, id);
    if op.OpTick? {
      ApplyTick(t);
      TickedTimer(t, id);
    } else if op.OpReady? {
      ReadyTypes(t, op);
    } else if Opens(op) {
      OpenType(t, op, id);
    } else if Pauses(op) {
      PausedType(t, op, id);
    } else {
      OpenedType(t, op, id);
    }
  }

  /** No run of any kind keeps a socket resolving and connecting for a hundred ticks: its timer is reset no more
      than once. */
  lemma {:induction false} NeverForever(t: Table, ops: seq<Op>, u: Table, id: int)
    requires Agree(t) && Reaches(t, ops, u) && id in t.timers && id in u.timers
    ensures id in t.sockets && id in u.sockets
    ensures TimeLeft(u, id) + TICKPERIOD * TicksIn(ops) <= TimeLeft(t, id) && TicksIn(ops) < 100
    decreases |ops|
  {
    hide Agree, Apply, Offered, Harmless;
    ReachesKeeps(t, ops, u);
    TimerRuns(t, id);
    TimerRuns(u, id);
    if ops != [] {
      var v := Apply(t, ops[0]);
      ApplyKeeps(t, ops[0]);
      if id !in v.timers {
        NextGrows(t, ops[0]);
        StaysGone(v, ops[1..], u, id);
      }
      TimerStep(t, ops[0], id);
      TypeStep(t, ops[0], id);
      NeverForever(v, ops[1..], u, id);
    }
  }

  // ---- runs to where the agreement can be lost ----

  lemma {:induction false} ReachesMore(t: Table, ops: seq<Op>, u: Table, op: Op)
    requires Reaches(t, ops, u) && Possible(u, op)
    ensures Reaches(t, ops + [op], Apply(u, op))
    decreases |ops|
  {
    if ops == [] {
      assert Reaches(Apply(t, op), [], Apply(u, op));
    } else {
      ReachesMore(Apply(t, ops[0]), ops[1..], u, op);
      assert (ops + [op])[1..] == ops[1..] + [op];
    }
  }

  lemma ReachesNowhere(t: Table)
    ensures Reaches(t, [], t)
  {
  }

  /** An accepted connection that was told not to listen by itself and then resumed, as the traffic bounce does once
      both its connections stand, is watched for input: a handshake on it would be recorded as waiting for output and
      still be watched for input. */
  lemma WatchedEarlyHappens(ty: SocketType) returns (t: Table)
    requires ty == TCP_SSL_NEG_CONNECT || ty == TCP_SSL_NEG_ACCEPT
    ensures Reaches(EMPTY, [OpAccepted(3), OpRegisterAccepted(0, false), OpResume(0)], t)
    ensures Agree(t) && !Agree(Negotiate(t, 0, ty))
    ensures var u := Negotiate(t, 0, ty); u.sockets[0].direction == OUT && u.polled == map[3 := Poll(IN, 0)]
  {
    hide Agree;
    t := EarlyRun();
    EmptyAgrees();
    ReachesKeeps(EMPTY, [OpAccepted(3), OpRegisterAccepted(0, false), OpResume(0)], t);
    NegotiateKeeps(t, 0, ty);
  }

  lemma EarlyRun() returns (t: Table)
    ensures Reaches(EMPTY, [OpAccepted(3), OpRegisterAccepted(0, false), OpResume(0)], t)
    ensures t.sockets == map[0 := NewSocket(TCP_PLAIN_LISTEN, 3, 0, true, false)] && t.polled == map[3 := Poll(IN, 0)]
  {
    hide Reaches;
    var xs: seq<Op> := [];
    assert xs + [OpAccepted(3)] == [OpAccepted(3)];
    assert [OpAccepted(3)] + [OpRegisterAccepted(0, false)] == [OpAccepted(3), OpRegisterAccepted(0, false)];
    assert [OpAccepted(3), OpRegisterAccepted(0, false)] + [OpResume(0)]
      == [OpAccepted(3), OpRegisterAccepted(0, false), OpResume(0)];
    ReachesNowhere(EMPTY);
    ReachesMore(EMPTY, [], EMPTY, OpAccepted(3));
    var a := Apply(EMPTY, OpAccepted(3));
    ReachesMore(EMPTY, [OpAccepted(3)], a, OpRegisterAccepted(0, false));
    var b := Apply(a, OpRegisterAccepted(0, false));
    ReachesMore(EMPTY, [OpAccepted(3), OpRegisterAccepted(0, false)], b, OpResume(0));
    t := Apply(b, OpResume(0));
  }

  /** A connection that ends before its receiver registers for it: the entry made for it has neither a type nor its
      own id. */
  lemma GoneBeforeRegistered() returns (t: Table)
    ensures Reaches(EMPTY, [OpAccepted(3), OpClose(0)], t)
    ensures Agree(t) && !Agree(RegisterAccepted(t, 0, true))
    ensures var u := RegisterAccepted(t, 0, true); 0 in u.sockets && u.sockets[0].ty == UNUSED && u.sockets[0].id == -1
  {
    ReachesNowhere(EMPTY);
    ReachesMore(EMPTY, [], EMPTY, OpAccepted(3));
    var a := Apply(EMPTY, OpAccepted(3));
    ReachesMore(EMPTY, [OpAccepted(3)], a, OpClose(0));
    t := Apply(a, OpClose(0));
    assert [OpAccepted(3)] + [OpClose(0)] == [OpAccepted(3), OpClose(0)];
    EmptyAgrees();
    ReachesKeeps(EMPTY, [OpAccepted(3), OpClose(0)], t);
    RegisterAcceptedKeeps(t, 0, true);
  }
}
