/** What the operations of the I/O manager are for, said without them: what a pause, a put-off close and a handshake
    mean for the rest of a run. */
module SocketLaws {
  import opened DataBlocks
  import opened SocketTable
  import opened SocketRuns

  // ---- pausing ----

  /** Nothing is read from the socket and nothing written to it. */
  predicate Asleep(t: Table, id: int) {
    id in t.sockets && t.sockets[id].paused && t.sockets[id].fd !in t.polled
  }

  lemma PausedIsAsleep(t: Table, id: int)
    requires Agree(t) && id in t.auto + t.manual
    ensures Asleep(t, id)
  {
    assert id in t.sockets && Fits(t, id);
  }

  lemma OpenedOnce(t: Table, op: Op, id: int)
    requires Agree(t) && Possible(t, op) && id !in t.sockets && id < t.next
    ensures id !in Apply(t, op).sockets && id < Apply(t, op).next
  {
    hide Agree, Apply, Offered, Harmless;
    NextGrows(t, op);
    if id in Apply(t, op).sockets {
      HowSocketsCome(t, op, id);
    }
  }

  /** The operations that can change who is paused. */
  predicate Marks(op: Op) {
    op.OpAutoPause? || op.OpPause? || op.OpResume? || op.OpClose? || op.OpCloseLater? || op.OpConnected?
    || op.OpTick? || op.OpReady?
  }

  lemma Unmarked(t: Table, op: Op)
    requires Possible(t, op) && !Marks(op) && !op.OpConnecting?
    ensures Apply(t, op).auto == t.auto && Apply(t, op).manual == t.manual
  {
    hide AddFD, SetFD, NewFD;
  }

  lemma ConnectingUnmarked(t: Table, op: Op)
    requires Possible(t, op) && op.OpConnecting?
    ensures Apply(t, op).auto == t.auto && Apply(t, op).manual == t.manual
  {
  }

  lemma Marked(t: Table, op: Op, id: int)
    requires Possible(t, op) && Marks(op)
    ensures id in t.auto && !op.OpReady? ==> id in Apply(t, op).auto || id !in Apply(t, op).sockets
    ensures id in t.manual && !Resumes(op, id) ==> id in Apply(t, op).manual || id !in Apply(t, op).sockets
  {
    hide AddFD, SetFD, NewFD;
  }

  lemma PausedStep(t: Table, op: Op, id: int)
    requires Possible(t, op)
    ensures id in t.auto && !op.OpReady? ==> id in Apply(t, op).auto || id !in Apply(t, op).sockets
    ensures id in t.manual && !Resumes(op, id) ==> id in Apply(t, op).manual || id !in Apply(t, op).sockets
  {
    hide Apply, Offered, Harmless;
    if Marks(op) {
      Marked(t, op, id);
    } else if op.OpConnecting? {
      ConnectingUnmarked(t, op);
    } else {
      Unmarked(t, op);
    }
  }

  predicate Resumes(op: Op, id: int) { op.OpResume? && op.id == id }

  lemma {:induction false} StaysClosed(t: Table, ops: seq<Op>, u: Table, id: int)
    requires Agree(t) && Reaches(t, ops, u) && id !in t.sockets && id < t.next
    ensures id !in u.sockets
    decreases |ops|
  {
    hide Agree, Apply, Offered, Harmless;
    if ops != [] {
      ApplyKeeps(t, ops[0]);
      OpenedOnce(t, ops[0], id);
      StaysClosed(Apply(t, ops[0]), ops[1..], u, id);
    }
  }

  lemma {:induction false} AutoLasts(t: Table, ops: seq<Op>, u: Table, id: int)
    requires Agree(t) && Reaches(t, ops, u) && id in t.auto && id < t.next && forall op <- ops :: !op.OpReady?
    ensures id in u.sockets ==> id in u.auto && Asleep(u, id)
    decreases |ops|
  {
    hide Agree, Apply, Offered, Harmless;
    if ops == [] {
      PausedIsAsleep(t, id);
    } else {
      var v := Apply(t, ops[0]);
      ApplyKeeps(t, ops[0]);
      PausedStep(t, ops[0], id);
      NextGrows(t, ops[0]);
      if id in v.auto {
        AutoLasts(v, ops[1..], u, id);
      } else {
        StaysClosed(v, ops[1..], u, id);
      }
    }
  }

  /** From the moment the work manager's answer pauses a socket it is asleep, whatever else happens, until the worker
      is ready or the socket is closed. */
  lemma AutoPauseLasts(t: Table, id: int, ops: seq<Op>, u: Table)
    requires Agree(t) && id in t.sockets && Reaches(Apply(t, OpAutoPause(id)), ops, u)
    requires forall op <- ops :: !op.OpReady?
    ensures id in u.sockets ==> id in u.auto && Asleep(u, id)
  {
    assert Fits(t, id);
    ApplyKeeps(t, OpAutoPause(id));
    AutoLasts(Apply(t, OpAutoPause(id)), ops, u, id);
  }

  lemma {:induction false} HandLasts(t: Table, ops: seq<Op>, u: Table, id: int)
    requires Agree(t) && Reaches(t, ops, u) && id in t.manual && id < t.next && forall op <- ops :: !Resumes(op, id)
    ensures id in u.sockets ==> id in u.manual && Asleep(u, id)
    decreases |ops|
  {
    hide Agree, Apply, Offered, Harmless;
    if ops == [] {
      PausedIsAsleep(t, id);
    } else {
      var v := Apply(t, ops[0]);
      ApplyKeeps(t, ops[0]);
      PausedStep(t, ops[0], id);
      NextGrows(t, ops[0]);
      if id in v.manual {
        HandLasts(v, ops[1..], u, id);
      } else {
        StaysClosed(v, ops[1..], u, id);
      }
    }
  }

  /** From the moment a socket is paused by hand it is asleep until it is resumed by hand or closed: the worker being
      ready changes nothing. */
  lemma PauseLasts(t: Table, id: int, ops: seq<Op>, u: Table)
    requires Agree(t) && id in t.sockets && Reaches(Apply(t, OpPause(id)), ops, u)
    requires forall op <- ops :: !Resumes(op, id)
    ensures id in u.sockets ==> id in u.manual && Asleep(u, id)
  {
    assert Fits(t, id);
    ApplyKeeps(t, OpPause(id));
    HandLasts(Apply(t, OpPause(id)), ops, u, id);
  }

  /** Resuming takes the pause by hand back: the socket is awake, and watched in its recorded direction, exactly if it
      is not paused for the work manager's sake as well; every other socket stays as it is. */
  lemma ResumeWakes(t: Table, id: int)
    requires Agree(t) && id in t.sockets
    ensures var u := Apply(t, OpResume(id));
      && id in u.sockets && id !in u.manual && u.auto == t.auto && OnlyFor(t, u, id)
      && u.sockets[id] == t.sockets[id].(paused := id in t.auto)
      && (var fd := u.sockets[id].fd;
          fd in u.polled <==> id !in t.auto && fd >= 0)
      && (var fd := u.sockets[id].fd; fd in u.polled ==> u.polled[fd] == Poll(u.sockets[id].direction, id))
  {
    assert Fits(t, id);
  }

  /** A pause by hand followed by a resume leaves everything as it was exactly when the socket was not paused by hand
      before, and was either watched, or paused for the work manager's sake, or has no descriptor yet. */
  lemma PauseResume(t: Table, id: int)
    requires Agree(t) && id in t.sockets
    ensures Resumed(ManuallyPaused(t, id), id) == t <==>
      id !in t.manual && (id in t.auto || t.sockets[id].fd < 0 || t.sockets[id].fd in t.polled)
  {
    hide Resumed, ManuallyPaused, Agree;
    if id in t.manual {
      NoLongerPaused(t, id);
    } else if id in t.auto {
      BackToPaused(t, id);
    } else {
      BackToWatched(t, id);
    }
  }

  lemma NoLongerPaused(t: Table, id: int)
    requires id in t.sockets
    ensures id !in Resumed(ManuallyPaused(t, id), id).manual
  {
  }

  lemma BackToPaused(t: Table, id: int)
    requires Agree(t) && id in t.auto && id !in t.manual
    ensures Resumed(ManuallyPaused(t, id), id) == t
  {
    assert id in t.sockets && Fits(t, id);
    assert t.sockets[id := t.sockets[id].(paused := true)] == t.sockets;
    assert t.polled - {t.sockets[id].fd} == t.polled && t.manual + {id} - {id} == t.manual;
  }

  lemma BackToWatched(t: Table, id: int)
    requires Agree(t) && id in t.sockets && id !in t.auto && id !in t.manual
    ensures Resumed(ManuallyPaused(t, id), id) == t <==> t.sockets[id].fd < 0 || t.sockets[id].fd in t.polled
  {
    assert Fits(t, id);
    hide Agree, Fits;
    var s := t.sockets[id];
    var m := t.sockets[id := s.(paused := true)];
    assert m[id := m[id].(paused := false)] == t.sockets && t.manual + {id} - {id} == t.manual;
    if s.fd in t.polled {
      assert (t.polled - {s.fd})[s.fd := Poll(s.direction, id)] == t.polled;
    } else {
      assert t.polled - {s.fd} == t.polled;
    }
  }

  // ---- every field, one at a time ----

  /** The operation is one on this socket. */
  predicate On(op: Op, id: int) {
    match op
    case OpClient(_) => false
    case OpListener(_, _) => false
    case OpAccepted(_) => false
    case OpReady(_) => false
    case OpTick => false
    case _ => op.id == id
  }

  /** A connection is resolved, made and encrypted in this order, and keeps its side of the handshake. */
  function NextType(ty: SocketType, op: Op): SocketType {
    if op.OpConnecting? then TCP_CONNECTING
    else if op.OpConnected? then TCP_PLAIN
    else if op.OpNegotiate? && ty in {TCP_PLAIN, TCP_PLAIN_LISTEN} then op.ty
    else if op.OpNegotiatedOut? && !op.done then
      if ty == TCP_SSL_NEG_CONNECT then TCP_SSL_NEG_REDO_CONNECT else TCP_SSL_NEG_REDO_ACCEPT
    else if op.OpNegotiatedOut? || op.OpNegotiatedIn? then TCP_SSL
    else ty
  }

  lemma OthersUntouched(t: Table, op: Op, id: int)
    requires Agree(t) && Possible(t, op) && id in t.sockets && !On(op, id) && !op.OpReady? && !op.OpTick?
    ensures id in Apply(t, op).sockets && Apply(t, op).sockets[id] == t.sockets[id]
  {
    hide AddFD, SetFD, NewFD, Fits;
    assert t.next !in t.sockets by { FreshId(t); }
  }

  lemma TickTouchesNone(t: Table, id: int)
    requires id in t.sockets && id in Tick(t).sockets
    ensures Tick(t).sockets[id] == t.sockets[id]
  {
  }

  lemma ReadyUnpauses(t: Table, op: Op, id: int)
    requires Agree(t) && op.OpReady? && Possible(t, op) && id in t.sockets
    ensures id in Apply(t, op).sockets
    ensures Apply(t, op).sockets[id] == t.sockets[id].(paused := id in t.manual)
  {
    assert Fits(t, id);
    assert id in op.after.sockets.Keys;
  }

  predicate TypeLaw(s: SocketInfo, r: SocketInfo, op: Op) { r.ty == NextType(s.ty, op) }

  /** What is queued changes only by what is sent, which comes behind it, and by what a flush leaves; a socket once told
      to close goes on closing. */
  predicate QueueLaw(s: SocketInfo, r: SocketInfo, op: Op) {
    && r.sendqueue == (if op.OpQueued? then s.sendqueue + op.more else if op.OpFlushed? then op.rest else s.sendqueue)
    && r.closing == (s.closing || op.OpCloseLater?)
  }

  predicate FlagLaw(s: SocketInfo, r: SocketInfo, op: Op) {
    && r.id == s.id && r.fd == (if op.OpConnecting? then op.fd else s.fd)
    && r.receiver == (s.receiver || op.OpRegisterAccepted?)
    && r.listenimmediately == (if op.OpRegisterAccepted? then op.listenimmediately else s.listenimmediately)
    && r.lowprio == (s.lowprio || op.OpLowered?)
  }

  predicate Plain(ty: SocketType) { ty == TCP_PLAIN || ty == TCP_PLAIN_LISTEN }

  /** What the socket waits for: output while connecting, at the start of a handshake and while an established one has
      something queued, else input. */
  predicate DirectionLaw(s: SocketInfo, r: SocketInfo, op: Op) {
    r.direction ==
      if op.OpConnecting? || (op.OpNegotiate? && Plain(s.ty)) || (op.OpQueued? && Established(s.ty))
         || (op.OpNegotiatedIn? && s.sendqueue != []) then OUT
      else if op.OpDrained? || (op.OpRegisterAccepted? && op.listenimmediately)
         || (op.OpConnected? && s.listenimmediately && s.sendqueue == [])
         || (op.OpNegotiatedOut? && !(op.done && s.sendqueue != [])) then IN
      else s.direction
  }

  predicate FieldLaws(s: SocketInfo, r: SocketInfo, op: Op) {
    TypeLaw(s, r, op) && QueueLaw(s, r, op) && FlagLaw(s, r, op) && DirectionLaw(s, r, op)
  }

  lemma OwnOpening(t: Table, op: Op, id: int)
    requires Opens(op) && Possible(t, op) && On(op, id) && id in t.sockets && id in Apply(t, op).sockets
    ensures FieldLaws(t.sockets[id], Apply(t, op).sockets[id], op)
  {
    hide AddFD, SetFD, NewFD;
  }

  lemma OwnPausing(t: Table, op: Op, id: int)
    requires Pauses(op) && Possible(t, op) && On(op, id) && id in t.sockets && id in Apply(t, op).sockets
    ensures FieldLaws(t.sockets[id], Apply(t, op).sockets[id], op)
  {
    hide AddFD, SetFD, NewFD;
  }

  predicate Shakes(op: Op) { op.OpNegotiate? || op.OpNegotiatedOut? || op.OpNegotiatedIn? }

  lemma OwnHandshake(t: Table, op: Op, id: int)
    requires op.OpNegotiate? && Possible(t, op) && op.id == id && id in t.sockets && id in Apply(t, op).sockets
    ensures FieldLaws(t.sockets[id], Apply(t, op).sockets[id], op)
  {
    hide AddFD, SetFD;
  }

  lemma RedirectOnly(t: Table, id: int, dir: Direction)
    requires id in t.sockets
    ensures id in Redirect(t, id, dir).sockets
    ensures Redirect(t, id, dir).sockets[id] == t.sockets[id].(direction := dir)
  {
  }

  lemma NegotiatedFields(t: Table, id: int, done: bool)
    requires id in t.sockets
    ensures var s := t.sockets[id];
      id in NegotiatedOut(t, id, done).sockets && NegotiatedOut(t, id, done).sockets[id] ==
        s.(ty := NextType(s.ty, OpNegotiatedOut(id, done)),
           direction := if done && s.sendqueue != [] then s.direction else IN)
    ensures id in NegotiatedIn(t, id).sockets && NegotiatedIn(t, id).sockets[id] ==
      t.sockets[id].(ty := TCP_SSL, direction := if t.sockets[id].sendqueue != [] then OUT else t.sockets[id].direction)
  {
    hide Redirect;
    var s := t.sockets[id];
    var ty := NextType(s.ty, OpNegotiatedOut(id, done));
    RedirectOnly(t.(sockets := t.sockets[id := s.(ty := ty)]), id, IN);
    RedirectOnly(t.(sockets := t.sockets[id := s.(ty := TCP_SSL)]), id, OUT);
  }

  lemma OwnShaking(t: Table, op: Op, id: int)
    requires (op.OpNegotiatedOut? || op.OpNegotiatedIn?) && Possible(t, op) && op.id == id
    requires id in t.sockets && id in Apply(t, op).sockets
    ensures FieldLaws(t.sockets[id], Apply(t, op).sockets[id], op)
  {
    hide NegotiatedOut, NegotiatedIn;
    NegotiatedFields(t, id, op.OpNegotiatedOut? && op.done);
  }

  lemma OwnSending(t: Table, op: Op, id: int)
    requires !Opens(op) && !Pauses(op) && !Shakes(op) && Possible(t, op) && On(op, id)
    requires id in t.sockets && id in Apply(t, op).sockets
    ensures FieldLaws(t.sockets[id], Apply(t, op).sockets[id], op)
  {
    hide AddFD, SetFD, NewFD;
  }

  /** What an operation on a socket makes of it, field by field. */
  lemma OwnStep(t: Table, op: Op, id: int)
    requires Possible(t, op) && On(op, id) && id in t.sockets && id in Apply(t, op).sockets
    ensures FieldLaws(t.sockets[id], Apply(t, op).sockets[id], op)
  {
    hide Apply, Offered, Harmless, FieldLaws;
    if Opens(op) {
      OwnOpening(t, op, id);
    } else if Pauses(op) {
      OwnPausing(t, op, id);
    } else if op.OpNegotiate? {
      OwnHandshake(t, op, id);
    } else if Shakes(op) {
      OwnShaking(t, op, id);
    } else {
      OwnSending(t, op, id);
    }
  }

  /** Which operations can have a socket watched, and which end that. */
  predicate WatchLaw(t: Table, u: Table, op: Op, id: int)
    requires id in t.sockets && id in u.sockets
  {
    var s := t.sockets[id];
    u.sockets[id].fd in u.polled <==>
      if op.OpAutoPause? || op.OpPause? then false
      else if op.OpResume? then id !in t.auto
      else if op.OpConnecting? || (op.OpRegisterAccepted? && op.listenimmediately)
              || (op.OpNegotiate? && Plain(s.ty) && !s.listenimmediately) then !s.paused
      else if op.OpConnected? then s.listenimmediately && s.fd in t.polled
      else s.fd in t.polled
  }

  lemma ConnectingOffered(t: Table, op: Op)
    requires Possible(t, op) && op.OpConnecting?
    ensures NewFD(t, op.fd)
  {
  }

  lemma NewUnwatched(t: Table, fd: int)
    requires Agree(t) && NewFD(t, fd)
    ensures fd !in t.polled
  {
  }

  lemma WatchOpening(t: Table, op: Op, id: int)
    requires Opens(op) && Possible(t, op) && On(op, id) && id in t.sockets && id in Apply(t, op).sockets
    requires Fits(t, id) && Apply(t, op).sockets[id].fd >= 0 && (op.OpConnecting? ==> op.fd !in t.polled)
    ensures WatchLaw(t, Apply(t, op), op, id)
  {
  }

  lemma WatchPausing(t: Table, op: Op, id: int)
    requires Pauses(op) && Possible(t, op) && On(op, id) && id in t.sockets && id in Apply(t, op).sockets
    requires Fits(t, id) && Apply(t, op).sockets[id].fd >= 0
    ensures WatchLaw(t, Apply(t, op), op, id)
  {
  }

  lemma WatchOther(t: Table, op: Op, id: int)
    requires !Opens(op) && !Pauses(op) && Possible(t, op) && On(op, id)
    requires id in t.sockets && id in Apply(t, op).sockets
    requires Fits(t, id) && Apply(t, op).sockets[id].fd >= 0
    ensures WatchLaw(t, Apply(t, op), op, id)
  {
  }

  lemma OwnWatch(t: Table, op: Op, id: int)
    requires Agree(t) && Possible(t, op) && On(op, id) && id in t.sockets && id in Apply(t, op).sockets
    requires Apply(t, op).sockets[id].fd >= 0
    ensures WatchLaw(t, Apply(t, op), op, id)
  {
    hide Apply, Offered, Harmless, WatchLaw;
    assert Fits(t, id);
    if Opens(op) {
      if op.OpConnecting? {
        assert NewFD(t, op.fd) by { ConnectingOffered(t, op); }
        NewUnwatched(t, op.fd);
      }
      WatchOpening(t, op, id);
    } else if Pauses(op) {
      WatchPausing(t, op, id);
    } else {
      WatchOther(t, op, id);
    }
  }

  /** How sockets come: a client's resolves with its timer at zero, a listener is watched, an accepted one waits for
      somebody to receive its events. */
  lemma HowSocketsCome(t: Table, op: Op, id: int)
    requires Agree(t) && Possible(t, op) && id !in t.sockets && id in Apply(t, op).sockets
    ensures var u := Apply(t, op);
      var s := u.sockets[id];
      && id == t.next && u.next == t.next + 1 && (op.OpClient? || op.OpListener? || op.OpAccepted?)
      && s.sendqueue == [] && !s.closing && !s.paused && !s.lowprio && s.direction == IN && s.id == id
      && (op.OpClient? ==> s.ty == TCP_RESOLVING && s.receiver && s.listenimmediately == op.listenimmediately
                           && id in u.timers && u.timers[id] == 0)
      && (op.OpListener? ==> s.ty == op.ty && s.fd == op.fd && s.receiver && s.fd in u.polled)
      && (op.OpAccepted? ==> s.ty == TCP_PLAIN_LISTEN && s.fd == op.fd && !s.receiver && s.fd !in u.polled)
  {
    hide Fits;
    assert op.OpReady? ==> id in op.after.sockets.Keys;
    if op.OpAccepted? {
      assert op.fd !in t.polled;
    }
  }

  /** And how they go: closed, timed out, or refused a put-off by having nothing queued. */
  lemma HowSocketsGo(t: Table, op: Op, id: int)
    requires Agree(t) && Possible(t, op) && id in t.sockets
    ensures id !in Apply(t, op).sockets <==>
      || (op.OpClose? && op.id == id)
      || (op.OpCloseLater? && op.id == id && t.sockets[id].sendqueue == [])
      || (op.OpConnected? && op.id == id && t.sockets[id].closing
          && (t.sockets[id].sendqueue == [] || !t.sockets[id].listenimmediately))
      || (op.OpTick? && id in t.timers && t.timers[id] + TICKPERIOD >= CONNECT_TIMEOUT_MS)
  {
    hide Agree, AddFD, SetFD, NewFD, Tick;
    assert op.OpReady? ==> op.after.sockets.Keys == t.sockets.Keys;
    if op.OpTick? {
      TickGoes(t, id);
    }
  }

  lemma TickGoes(t: Table, id: int)
    requires Agree(t) && id in t.sockets
    ensures id !in Tick(t).sockets <==> id in t.timers && t.timers[id] + TICKPERIOD >= CONNECT_TIMEOUT_MS
  {
    if id in t.timers {
      TickedTimer(t, id);
    }
  }
}
