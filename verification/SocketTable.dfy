/** What the I/O manager knows about its sockets, as a value: the socket map, the connect timers, the two sets
    of paused sockets and what the poller watches; and what each handler makes of them. */
module SocketTable {
  import opened DataBlocks

  const TICKPERIOD := 100
  const CONNECT_TIMEOUT_MS := 5000

  datatype SocketType =
    | UNUSED | EXTERNAL | TCP_PLAIN | TCP_SSL | UDP | TCP_SERVER | TCP_SERVER_EXTERNAL | TCP_PLAIN_LISTEN
    | TCP_SSL_NEG_CONNECT | TCP_SSL_NEG_REDO_CONNECT | TCP_SSL_NEG_ACCEPT | TCP_SSL_NEG_REDO_ACCEPT
    | TCP_CONNECTING | TCP_RESOLVING

  datatype Direction = IN | OUT

  datatype SocketInfo = SocketInfo(
    ty: SocketType, fd: int, id: int, receiver: bool, sendqueue: seq<DataBlock>,
    lowprio: bool, paused: bool, direction: Direction, listenimmediately: bool, closing: bool)

  /** What the poller watches a descriptor for, and the socket id it reports. */
  datatype Poll = Poll(dir: Direction, id: int)

  datatype Table = Table(
    sockets: map<int, SocketInfo>, timers: map<int, int>,
    auto: set<int>, manual: set<int>, polled: map<int, Poll>, next: nat)

  // ---- the poller, as epoll has it ----

  /** Adding a descriptor that is watched already, or none, changes nothing. */
  function AddFD(polled: map<int, Poll>, fd: int, p: Poll): map<int, Poll> {
    if fd < 0 || fd in polled then polled else polled[fd := p]
  }

  /** Nor does modifying one that is not watched. */
  function SetFD(polled: map<int, Poll>, fd: int, p: Poll): map<int, Poll> {
    if fd in polled then polled[fd := p] else polled
  }

  // ---- handlers ----

  function Put(t: Table, s: SocketInfo): Table { t.(sockets := t.sockets[s.id := s]) }

  /** pollRead and pollWrite. */
  function Watch(t: Table, id: int, dir: Direction): Table
    requires id in t.sockets
  {
    var s := t.sockets[id].(direction := dir);
    t.(sockets := t.sockets[id := s], polled := if s.paused then t.polled else AddFD(t.polled, s.fd, Poll(dir, id)))
  }

  /** setPollRead and setPollWrite. */
  function Redirect(t: Table, id: int, dir: Direction): Table
    requires id in t.sockets
  {
    var s := t.sockets[id].(direction := dir);
    t.(sockets := t.sockets[id := s], polled := if s.paused then t.polled else SetFD(t.polled, s.fd, Poll(dir, id)))
  }

  function NewSocket(ty: SocketType, fd: int, id: int, receiver: bool, listenimmediately: bool): SocketInfo {
    SocketInfo(ty, fd, id, receiver, [], false, false, IN, listenimmediately, false)
  }

  /** registerTCPClientSocket up to the resolution of the name. */
  function RegisterClient(t: Table, listenimmediately: bool): Table {
    var s := NewSocket(TCP_RESOLVING, -1, t.next, true, listenimmediately);
    Put(t, s).(timers := t.timers[s.id := 0], next := t.next + 1)
  }

  /** registerTCPServerSocket and its like, once there is a descriptor. */
  function RegisterListener(t: Table, ty: SocketType, fd: int): Table {
    Watch(Put(t, NewSocket(ty, fd, t.next, true, true)).(next := t.next + 1), t.next, IN)
  }

  /** A connection is accepted: nobody receives its events yet, and it is not watched. */
  function Accepted(t: Table, fd: int): Table {
    Put(t, NewSocket(TCP_PLAIN_LISTEN, fd, t.next, false, true)).(next := t.next + 1)
  }

  /** The entry operator[] makes for an id that is not in the map. */
  const BLANK := SocketInfo(UNUSED, -1, -1, false, [], false, false, IN, true, false)

  /** registerTCPServerClientSocket. */
  function RegisterAccepted(t: Table, id: int, listenimmediately: bool): Table {
    var s := if id in t.sockets then t.sockets[id] else BLANK;
    var u := t.(sockets := t.sockets[id := s.(receiver := true, listenimmediately := listenimmediately)]);
    if listenimmediately then Watch(u, id, IN) else u
  }

  /** The name is resolved and the connection under way. */
  function Connecting(t: Table, id: int, fd: int): Table
    requires id in t.sockets
  {
    Watch(t.(sockets := t.sockets[id := t.sockets[id].(fd := fd, ty := TCP_CONNECTING)], timers := t.timers[id := 0]),
          id, OUT)
  }

  /** handleTCPConnectingOut without an error. */
  function Connected(t: Table, id: int): Table
    requires id in t.sockets
  {
    var s := t.sockets[id];
    var u := t.(sockets := t.sockets[id := s.(ty := TCP_PLAIN)], timers := t.timers - {id});
    if s.closing && (s.sendqueue == [] || !s.listenimmediately) then Close(u, id)
    else if !s.listenimmediately then u.(polled := u.polled - {s.fd})
    else if s.sendqueue == [] then Redirect(u, id, IN)
    else u
  }

  predicate Established(ty: SocketType) { ty == TCP_PLAIN || ty == TCP_PLAIN_LISTEN || ty == TCP_SSL }

  /** sendData: blocks are queued, and an established socket is watched for output. */
  function Queued(t: Table, id: int, more: seq<DataBlock>): Table
    requires id in t.sockets
  {
    var s := t.sockets[id];
    var u := t.(sockets := t.sockets[id := s.(sendqueue := s.sendqueue + more)]);
    if Established(s.ty) then Redirect(u, id, OUT) else u
  }

  /** What the out-handlers leave of a queue. */
  function Flushed(t: Table, id: int, rest: seq<DataBlock>): Table
    requires id in t.sockets
  {
    t.(sockets := t.sockets[id := t.sockets[id].(sendqueue := rest)])
  }

  lemma FlushedSame(t: Table, id: int)
    requires id in t.sockets
    ensures Flushed(t, id, t.sockets[id].sendqueue) == t
  {
    assert t.sockets[id := t.sockets[id].(sendqueue := t.sockets[id].sendqueue)] == t.sockets;
  }

  lemma FlushedAgain(t: Table, id: int, q: seq<DataBlock>, r: seq<DataBlock>)
    requires id in t.sockets
    ensures Flushed(Flushed(t, id, q), id, r) == Flushed(t, id, r)
  {
  }

  /** closeSocketIntern. */
  function Close(t: Table, id: int): Table {
    if id !in t.sockets then t
    else Table(t.sockets - {id}, t.timers - {id}, t.auto - {id}, t.manual - {id}, t.polled - {t.sockets[id].fd}, t.next)
  }

  /** closeSocket: at once when nothing is queued, else once the queue is empty. */
  function CloseLater(t: Table, id: int): Table {
    if id !in t.sockets then t
    else if t.sockets[id].sendqueue != [] then t.(sockets := t.sockets[id := t.sockets[id].(closing := true)])
    else Close(t, id)
  }

  function Negotiate(t: Table, id: int, ty: SocketType): Table {
    if id !in t.sockets || (t.sockets[id].ty != TCP_PLAIN && t.sockets[id].ty != TCP_PLAIN_LISTEN) then t
    else
      var u := t.(sockets := t.sockets[id := t.sockets[id].(ty := ty)]);
      if u.sockets[id].listenimmediately then Redirect(u, id, OUT) else Watch(u, id, OUT)
  }

  /** handleTCPSSLNegotiationOut after its flush, when the handshake has not failed. */
  function NegotiatedOut(t: Table, id: int, done: bool): Table
    requires id in t.sockets
  {
    var s := t.sockets[id];
    var ty := if done then TCP_SSL
              else if s.ty == TCP_SSL_NEG_CONNECT then TCP_SSL_NEG_REDO_CONNECT
              else TCP_SSL_NEG_REDO_ACCEPT;
    var u := t.(sockets := t.sockets[id := s.(ty := ty)]);
    if done && s.sendqueue != [] then u else Redirect(u, id, IN)
  }

  /** handleTCPSSLNegotiationIn, when the handshake is done. */
  function NegotiatedIn(t: Table, id: int): Table
    requires id in t.sockets
  {
    var u := t.(sockets := t.sockets[id := t.sockets[id].(ty := TCP_SSL)]);
    if t.sockets[id].sendqueue != [] then Redirect(u, id, OUT) else u
  }

  function Lowered(t: Table, id: int): Table
    requires id in t.sockets
  {
    t.(sockets := t.sockets[id := t.sockets[id].(lowprio := true)])
  }

  function AutoPaused(t: Table, id: int): Table
    requires id in t.sockets
  {
    t.(auto := t.auto + {id}, sockets := t.sockets[id := t.sockets[id].(paused := true)],
       polled := t.polled - {t.sockets[id].fd})
  }

  function ManuallyPaused(t: Table, id: int): Table {
    if id !in t.sockets || id in t.manual then t
    else t.(manual := t.manual + {id}, sockets := t.sockets[id := t.sockets[id].(paused := true)],
            polled := t.polled - {t.sockets[id].fd})
  }

  function Resumed(t: Table, id: int): Table {
    if id !in t.sockets then t
    else
      var s, u := t.sockets[id], t.(manual := t.manual - {id});
      if id in t.auto then u
      else u.(sockets := t.sockets[id := s.(paused := false)], polled := AddFD(t.polled, s.fd, Poll(s.direction, id)))
  }

  /** One turn of the loop in workerReady. */
  function ReadyOne(t: Table, id: int): Table {
    if id !in t.sockets || id in t.manual then t
    else
      var s := t.sockets[id];
      t.(sockets := t.sockets[id := s.(paused := false)],
         polled := if s.receiver then AddFD(t.polled, s.fd, Poll(s.direction, id)) else t.polled)
  }

  // ---- what the four collections agree on ----

  predicate ConnectingType(ty: SocketType) { ty == TCP_RESOLVING || ty == TCP_CONNECTING }

  /** A socket that should be watched: it has a receiver and a descriptor, and listens without being told to. */
  predicate Due(s: SocketInfo) { s.receiver && s.listenimmediately && s.fd >= 0 && !s.paused }

  /** A connection, or the start of a handshake, is waited for like output. */
  predicate Opening(ty: SocketType) { ty in {TCP_CONNECTING, TCP_SSL_NEG_CONNECT, TCP_SSL_NEG_ACCEPT} }

  /** A socket in itself: pending output of an established socket is waited for. */
  predicate Directed(s: SocketInfo) {
    && (Established(s.ty) && s.sendqueue != [] ==> s.direction == OUT)
    && (Opening(s.ty) ==> s.direction == OUT)
    && (if s.ty == TCP_RESOLVING then s.fd == -1 else s.fd >= 0)
  }

  /** A socket has a timer, not yet run out, exactly while it is resolving or connecting. */
  predicate Timed(t: Table, s: SocketInfo) {
    (s.id in t.timers <==> ConnectingType(s.ty)) && (s.id in t.timers ==> 0 <= t.timers[s.id] < CONNECT_TIMEOUT_MS)
  }

  /** It is paused exactly when it is in one of the two sets. */
  predicate PauseAgrees(t: Table, s: SocketInfo) {
    s.paused <==> s.id in t.auto || s.id in t.manual
  }

  /** If it is watched then it is not paused, and watched in its recorded direction; and it is watched when it
      should be. */
  predicate PollAgrees(t: Table, s: SocketInfo) {
    && (s.fd in t.polled ==> t.polled[s.fd] == Poll(s.direction, s.id) && !s.paused)
    && (Due(s) ==> s.fd in t.polled)
  }

  predicate Fits(t: Table, id: int)
    requires id in t.sockets
  {
    var s := t.sockets[id];
    s.id == id && 0 <= id < t.next && Directed(s) && Timed(t, s) && PauseAgrees(t, s) && PollAgrees(t, s)
  }

  ghost predicate Agree(t: Table) {
    && (forall id <- t.sockets :: Fits(t, id))
    && (forall i, j ::
      (i in t.sockets && j in t.sockets && i != j && t.sockets[i].fd >= 0) ==> t.sockets[i].fd != t.sockets[j].fd)
    && (forall k <- t.timers :: k in t.sockets) && (forall k <- t.auto + t.manual :: k in t.sockets)
    && (forall fd <- t.polled :: fd >= 0 && t.polled[fd].id in t.sockets && t.sockets[t.polled[fd].id].fd == fd)
  }

  /** A descriptor the system hands out is not one of an open socket. */
  ghost predicate NewFD(t: Table, fd: int) {
    fd >= 0 && forall id <- t.sockets :: t.sockets[id].fd != fd
  }

  lemma FreshId(t: Table)
    requires Agree(t)
    ensures t.next !in t.sockets
  {
    forall id <- t.sockets ensures id < t.next {
      assert Fits(t, id);
    }
  }

  lemma EmptyAgrees()
    ensures Agree(Table(map[], map[], {}, {}, map[], 0))
  {
  }

  ghost predicate SameSet(s: set<int>, r: set<int>, id: int) { forall k :: k != id ==> (k in s <==> k in r) }

  ghost predicate SameMap<T>(m: map<int, T>, n: map<int, T>, id: int) {
    (forall k :: k in m && k != id ==> k in n && n[k] == m[k]) && (forall k :: k in n && k != id ==> k in m)
  }

  /** Socket id is new or has changed, and everything else about the table has changed for it alone. */
  ghost predicate OnlyFor(t: Table, u: Table, id: int) {
    && id in u.sockets && SameMap(t.sockets, u.sockets, id) && t.next <= u.next
    && SameSet(t.auto, u.auto, id) && SameSet(t.manual, u.manual, id) && SameMap(t.timers, u.timers, id)
    && var fd := u.sockets[id].fd;
      && SameMap(t.polled, u.polled, fd) && (fd in u.polled ==> fd >= 0)
      && (if id in t.sockets && t.sockets[id].fd >= 0 then fd == t.sockets[id].fd else fd == -1 || NewFD(t, fd))
  }

  /** The other sockets fit as they did. */
  lemma OthersFit(t: Table, u: Table, id: int, k: int)
    requires Agree(t) && OnlyFor(t, u, id) && k in u.sockets && k != id
    ensures Fits(u, k) && (u.sockets[id].fd >= 0 ==> u.sockets[k].fd != u.sockets[id].fd)
  {
    assert k in t.sockets && Fits(t, k);
    assert u.sockets[id].fd != u.sockets[k].fd || u.sockets[id].fd < 0;
    assert t.sockets[k].fd < 0 ==> t.sockets[k].fd !in t.polled && t.sockets[k].fd !in u.polled;
  }

  lemma FitsIn(t: Table, id: int)
    requires Agree(t) && id in t.sockets
    ensures Fits(t, id)
  {
  }

  /** So only that socket needs to be looked at. */
  lemma OneFits(t: Table, u: Table, id: int)
    requires Agree(t) && OnlyFor(t, u, id) && Fits(u, id)
    ensures Agree(u)
  {
    hide Fits;
    forall k | k in u.sockets && k != id
      ensures Fits(u, k) && (u.sockets[id].fd >= 0 ==> u.sockets[k].fd != u.sockets[id].fd)
    {
      OthersFit(t, u, id, k);
    }
    FitsId(u, id);
    forall k | k in u.timers || k in u.auto + u.manual ensures k in u.sockets {
      assert k != id ==> k in t.timers || k in t.auto + t.manual;
    }
    forall fd <- u.polled ensures fd >= 0 && u.polled[fd].id in u.sockets && u.sockets[u.polled[fd].id].fd == fd {
      if fd != u.sockets[id].fd {
        var k := t.polled[fd].id;
        assert k in t.sockets && t.sockets[k].fd == fd;
      }
    }
  }

  lemma FitsId(u: Table, id: int)
    requires id in u.sockets && Fits(u, id)
    ensures id in u.timers || id in u.auto || id in u.manual ==> id in u.sockets
    ensures u.sockets[id].fd in u.polled ==> u.polled[u.sockets[id].fd].id == id
  {
  }

  // ---- every handler keeps the agreement ----

  /** A socket changes in itself, and what it says about timers, pausing and polling stays. */
  lemma SelfKeeps(t: Table, s: SocketInfo)
    requires Agree(t) && s.id in t.sockets && Directed(s)
    requires var r := t.sockets[s.id];
      s.fd == r.fd && ConnectingType(s.ty) == ConnectingType(r.ty) && s.paused == r.paused &&
      s.direction == r.direction && Due(s) == Due(r)
    ensures Agree(Put(t, s))
  {
    assert Fits(t, s.id);
    OneFits(t, Put(t, s), s.id);
  }

  /** A socket changes in itself and is turned to another direction. */
  function Turned(t: Table, s: SocketInfo): Table {
    Put(t, s).(polled := if s.paused then t.polled else SetFD(t.polled, s.fd, Poll(s.direction, s.id)))
  }

  lemma TurnKeeps(t: Table, s: SocketInfo)
    requires Agree(t) && s.id in t.sockets && Directed(s)
    requires var r := t.sockets[s.id];
      s.fd == r.fd && ConnectingType(s.ty) == ConnectingType(r.ty) && s.paused == r.paused && Due(s) == Due(r)
    ensures Agree(Turned(t, s))
  {
    assert Fits(t, s.id);
    OneFits(t, Turned(t, s), s.id);
  }

  lemma RedirectKeeps(t: Table, id: int, dir: Direction)
    requires Agree(t) && id in t.sockets && Directed(t.sockets[id].(direction := dir))
    ensures Agree(Redirect(t, id, dir))
  {
    assert Fits(t, id);
    TurnKeeps(t, t.sockets[id].(direction := dir));
  }

  /** A socket changes its type, and is then turned. */
  lemma RetypedKeeps(t: Table, id: int, ty: SocketType, dir: Direction)
    requires Agree(t) && id in t.sockets && Directed(t.sockets[id].(ty := ty, direction := dir))
    requires ConnectingType(ty) == ConnectingType(t.sockets[id].ty)
    ensures Agree(Redirect(t.(sockets := t.sockets[id := t.sockets[id].(ty := ty)]), id, dir))
  {
    assert Fits(t, id);
    var s := t.sockets[id].(ty := ty, direction := dir);
    TurnKeeps(t, s);
    assert t.sockets[id := t.sockets[id].(ty := ty)][id := s] == t.sockets[id := s];
  }

  /** Or is watched, if that is not in the other direction already. */
  lemma RetypedWatched(t: Table, id: int, ty: SocketType, dir: Direction)
    requires Agree(t) && id in t.sockets && Directed(t.sockets[id].(ty := ty, direction := dir))
    requires ConnectingType(ty) == ConnectingType(t.sockets[id].ty)
    requires t.sockets[id].fd in t.polled ==> t.sockets[id].direction == dir
    ensures Agree(Watch(t.(sockets := t.sockets[id := t.sockets[id].(ty := ty)]), id, dir))
  {
    hide Agree;
    var s := t.sockets[id].(ty := ty, direction := dir);
    TurnWatched(t, id, s);
    assert t.sockets[id := t.sockets[id].(ty := ty)][id := s] == t.sockets[id := s];
  }

  lemma TurnWatched(t: Table, id: int, s: SocketInfo)
    requires Agree(t) && id in t.sockets && Directed(s)
    requires var r := t.sockets[id];
      s == r.(ty := s.ty, direction := s.direction) && ConnectingType(s.ty) == ConnectingType(r.ty) &&
      (r.fd in t.polled ==> r.direction == s.direction)
    ensures Agree(t.(sockets := t.sockets[id := s],
                     polled := if s.paused then t.polled else AddFD(t.polled, s.fd, Poll(s.direction, id))))
  {
    assert Fits(t, id);
    OneFits(t, t.(sockets := t.sockets[id := s],
                  polled := if s.paused then t.polled else AddFD(t.polled, s.fd, Poll(s.direction, id))), id);
  }

  lemma RegisterClientKeeps(t: Table, listenimmediately: bool)
    requires Agree(t)
    ensures Agree(RegisterClient(t, listenimmediately))
  {
    OneFits(t, RegisterClient(t, listenimmediately), t.next);
  }

  lemma RegisterListenerKeeps(t: Table, ty: SocketType, fd: int)
    requires Agree(t) && NewFD(t, fd) && !ConnectingType(ty) && !Opening(ty)
    ensures Agree(RegisterListener(t, ty, fd))
  {
    assert t.next !in t.sockets && fd !in t.polled;
    OneFits(t, RegisterListener(t, ty, fd), t.next);
  }

  lemma AcceptedKeeps(t: Table, fd: int)
    requires Agree(t) && NewFD(t, fd)
    ensures Agree(Accepted(t, fd))
  {
    assert t.next !in t.sockets && fd !in t.polled;
    OneFits(t, Accepted(t, fd), t.next);
  }

  /** When registering for an accepted connection goes well: the socket is open, and one that is to be watched
      for input does not wait for output, and is not watched for it already, since adding a descriptor to the
      poller again changes nothing. */
  predicate Registrable(t: Table, id: int, listenimmediately: bool) {
    id in t.sockets && (listenimmediately ==>
      var s := t.sockets[id];
      && !Opening(s.ty) && !(Established(s.ty) && s.sendqueue != [])
      && (s.fd in t.polled ==> s.direction == IN))
  }

  lemma RegisterAcceptedKeeps(t: Table, id: int, listenimmediately: bool)
    requires Agree(t)
    ensures Agree(RegisterAccepted(t, id, listenimmediately)) <==> Registrable(t, id, listenimmediately)
  {
    var u := RegisterAccepted(t, id, listenimmediately);
    assert id in t.sockets ==> Fits(t, id);
    if Registrable(t, id, listenimmediately) {
      OneFits(t, u, id);
    } else {
      assert !Fits(u, id);
    }
  }

  lemma ConnectingKeeps(t: Table, id: int, fd: int)
    requires Agree(t) && id in t.sockets && t.sockets[id].ty == TCP_RESOLVING && NewFD(t, fd)
    ensures Agree(Connecting(t, id, fd))
  {
    assert Fits(t, id) && fd !in t.polled;
    OneFits(t, Connecting(t, id, fd), id);
  }

  /** A connection is made: the timer goes. */
  lemma MadeKeeps(t: Table, id: int)
    requires Agree(t) && id in t.sockets && t.sockets[id].ty == TCP_CONNECTING
    ensures Agree(t.(sockets := t.sockets[id := t.sockets[id].(ty := TCP_PLAIN)], timers := t.timers - {id}))
  {
    assert Fits(t, id);
    OneFits(t, t.(sockets := t.sockets[id := t.sockets[id].(ty := TCP_PLAIN)], timers := t.timers - {id}), id);
  }

  lemma MadeDirected(t: Table, id: int)
    requires Agree(t) && id in t.sockets && t.sockets[id].ty == TCP_CONNECTING && t.sockets[id].sendqueue == []
    ensures Directed(t.sockets[id].(ty := TCP_PLAIN, direction := IN))
  {
    assert Fits(t, id);
  }

  /** unsetPoll. */
  lemma UnwatchKeeps(t: Table, id: int)
    requires Agree(t) && id in t.sockets && !Due(t.sockets[id])
    ensures Agree(t.(polled := t.polled - {t.sockets[id].fd}))
  {
    assert Fits(t, id);
    OneFits(t, t.(polled := t.polled - {t.sockets[id].fd}), id);
  }

  lemma ConnectedKeeps(t: Table, id: int)
    requires Agree(t) && id in t.sockets && t.sockets[id].ty == TCP_CONNECTING
    ensures Agree(Connected(t, id))
  {
    hide Agree, Redirect, Close;
    var s := t.sockets[id];
    MadeKeeps(t, id);
    var u := t.(sockets := t.sockets[id := s.(ty := TCP_PLAIN)], timers := t.timers - {id});
    if s.closing && (s.sendqueue == [] || !s.listenimmediately) {
      CloseKeeps(u, id);
    } else if !s.listenimmediately {
      UnwatchKeeps(u, id);
    } else if s.sendqueue == [] {
      assert Directed(u.sockets[id].(direction := IN)) by { MadeDirected(t, id); }
      RedirectKeeps(u, id, IN);
    }
  }

  lemma QueuedKeeps(t: Table, id: int, more: seq<DataBlock>)
    requires Agree(t) && id in t.sockets
    ensures Agree(Queued(t, id, more))
  {
    assert Fits(t, id);
    OneFits(t, Queued(t, id, more), id);
  }

  lemma FlushedKeeps(t: Table, id: int, rest: seq<DataBlock>)
    requires Agree(t) && id in t.sockets && (t.sockets[id].sendqueue == [] ==> rest == [])
    ensures Agree(Flushed(t, id, rest))
  {
    assert Fits(t, id);
    SelfKeeps(t, t.sockets[id].(sendqueue := rest));
  }

  /** setPollRead once the queue is empty. */
  lemma DrainedKeeps(t: Table, id: int)
    requires Agree(t) && id in t.sockets && t.sockets[id].sendqueue == [] && Established(t.sockets[id].ty)
    ensures Agree(Redirect(t, id, IN))
  {
    assert Fits(t, id);
    RedirectKeeps(t, id, IN);
  }

  lemma CloseKeeps(t: Table, id: int)
    requires Agree(t)
    ensures Agree(Close(t, id))
  {
    if id in t.sockets {
      var u := Close(t, id);
      forall k | k in u.sockets ensures Fits(u, k) {
        assert Fits(t, k);
        assert t.sockets[k].fd < 0 ==> t.sockets[k].fd !in t.polled;
      }
      forall fd <- u.polled ensures u.polled[fd].id in u.sockets {
        assert t.sockets[t.polled[fd].id].fd == fd;
      }
    }
  }

  lemma CloseLaterKeeps(t: Table, id: int)
    requires Agree(t)
    ensures Agree(CloseLater(t, id))
  {
    if id in t.sockets {
      assert Fits(t, id);
      if t.sockets[id].sendqueue != [] {
        OneFits(t, CloseLater(t, id), id);
      } else {
        CloseKeeps(t, id);
      }
    }
  }

  /** A handshake is started on a plain connection. */
  predicate Negotiable(t: Table, id: int) {
    id in t.sockets && (t.sockets[id].ty == TCP_PLAIN || t.sockets[id].ty == TCP_PLAIN_LISTEN)
  }

  /** A socket told not to listen by itself that is watched for input all the same. */
  predicate WatchedEarly(t: Table, id: int)
    requires id in t.sockets
  {
    var s := t.sockets[id];
    !s.listenimmediately && s.fd in t.polled && s.direction == IN
  }

  lemma NegotiatedEarly(t: Table, id: int, ty: SocketType)
    requires Agree(t) && Negotiable(t, id) && WatchedEarly(t, id)
    ensures !Agree(Negotiate(t, id, ty))
  {
    assert Fits(t, id);
    assert !Fits(Negotiate(t, id, ty), id);
  }

  lemma NegotiatedWell(t: Table, id: int, ty: SocketType)
    requires Agree(t) && (ty == TCP_SSL_NEG_CONNECT || ty == TCP_SSL_NEG_ACCEPT)
    requires Negotiable(t, id) && !WatchedEarly(t, id)
    ensures Agree(Negotiate(t, id, ty))
  {
    assert Fits(t, id);
    if t.sockets[id].listenimmediately {
      RetypedKeeps(t, id, ty, OUT);
    } else {
      RetypedWatched(t, id, ty, OUT);
    }
  }

  /** Starting a handshake: not if the socket, told not to listen by itself, is watched for input already. */
  lemma NegotiateKeeps(t: Table, id: int, ty: SocketType)
    requires Agree(t) && (ty == TCP_SSL_NEG_CONNECT || ty == TCP_SSL_NEG_ACCEPT)
    ensures Agree(Negotiate(t, id, ty)) <==> !(Negotiable(t, id) && WatchedEarly(t, id))
  {
    hide Agree;
    if Negotiable(t, id) {
      if WatchedEarly(t, id) {
        NegotiatedEarly(t, id, ty);
      } else {
        NegotiatedWell(t, id, ty);
      }
    }
  }

  /** Data still queued after the flush goes on being waited for, since the handshake began that way. */
  lemma NegotiatedOutKeeps(t: Table, id: int, done: bool)
    requires Agree(t) && id in t.sockets
    requires t.sockets[id].ty == TCP_SSL_NEG_CONNECT || t.sockets[id].ty == TCP_SSL_NEG_ACCEPT
    ensures Agree(NegotiatedOut(t, id, done))
  {
    hide Agree;
    FitsIn(t, id);
    var s := t.sockets[id];
    if done && s.sendqueue != [] {
      SelfKeeps(t, s.(ty := TCP_SSL));
    } else if done {
      RetypedKeeps(t, id, TCP_SSL, IN);
    } else if s.ty == TCP_SSL_NEG_CONNECT {
      RetypedKeeps(t, id, TCP_SSL_NEG_REDO_CONNECT, IN);
    } else {
      RetypedKeeps(t, id, TCP_SSL_NEG_REDO_ACCEPT, IN);
    }
  }

  /** The type and the direction change in one go: by itself the type would be ahead of the direction. */
  lemma NegotiatedInKeeps(t: Table, id: int)
    requires Agree(t) && id in t.sockets
    requires t.sockets[id].ty == TCP_SSL_NEG_REDO_CONNECT || t.sockets[id].ty == TCP_SSL_NEG_REDO_ACCEPT
    ensures Agree(NegotiatedIn(t, id))
  {
    assert Fits(t, id);
    if t.sockets[id].sendqueue != [] {
      RetypedKeeps(t, id, TCP_SSL, OUT);
    } else {
      SelfKeeps(t, t.sockets[id].(ty := TCP_SSL));
    }
  }

  lemma LoweredKeeps(t: Table, id: int)
    requires Agree(t) && id in t.sockets
    ensures Agree(Lowered(t, id))
  {
    assert Fits(t, id);
    SelfKeeps(t, t.sockets[id].(lowprio := true));
  }

  lemma AutoPauseKeeps(t: Table, id: int)
    requires Agree(t) && id in t.sockets
    ensures Agree(AutoPaused(t, id))
  {
    assert Fits(t, id);
    OneFits(t, AutoPaused(t, id), id);
  }

  lemma AutoPausedAlone(t: Table, id: int)
    requires Agree(t) && id in t.sockets
    ensures OnlyFor(t, AutoPaused(t, id), id)
  {
    assert Fits(t, id);
  }

  lemma ManualPauseKeeps(t: Table, id: int)
    requires Agree(t)
    ensures Agree(ManuallyPaused(t, id))
  {
    if id in t.sockets && id !in t.manual {
      assert Fits(t, id);
      OneFits(t, ManuallyPaused(t, id), id);
    }
  }

  lemma ResumeKeeps(t: Table, id: int)
    requires Agree(t)
    ensures Agree(Resumed(t, id))
  {
    if id in t.sockets {
      assert Fits(t, id);
      OneFits(t, Resumed(t, id), id);
    }
  }

  // ---- workerReady ----

  /** Whether a turn in workerReady has the socket watched again. */
  predicate Wakes(t: Table, id: int) {
    id in t.sockets && id !in t.manual && t.sockets[id].receiver && t.sockets[id].fd >= 0
  }

  /** The sockets in `done` have had their turn in workerReady: they are no longer paused, */
  ghost predicate Unpaused(t: Table, done: set<int>, u: Table) {
    && u.timers == t.timers && u.auto == t.auto && u.manual == t.manual && u.next == t.next
    && u.sockets.Keys == t.sockets.Keys
    && (forall id <- t.sockets ::
      u.sockets[id] == if id in done && id !in t.manual then t.sockets[id].(paused := false) else t.sockets[id])
  }

  /** and watched, and nothing else has changed in the poller. */
  ghost predicate Rewatched(t: Table, done: set<int>, polled: map<int, Poll>) {
    && (forall fd <- t.polled :: fd in polled && polled[fd] == t.polled[fd])
    && (forall id <- done :: Wakes(t, id) ==> t.sockets[id].fd in polled)
    && (forall fd <- polled :: fd !in t.polled ==>
      var id := polled[fd].id;
      id in done && Wakes(t, id) && polled[fd] == Poll(t.sockets[id].direction, id) && t.sockets[id].fd == fd)
  }

  ghost predicate ReadyFor(t: Table, done: set<int>, u: Table) {
    Unpaused(t, done, u) && Rewatched(t, done, u.polled)
  }

  lemma NobodyReady(t: Table)
    ensures ReadyFor(t, {}, t)
  {
  }

  lemma AutoKept(t: Table, done: set<int>, u: Table)
    requires ReadyFor(t, done, u)
    ensures u.auto == t.auto && u.manual == t.manual
  {
  }

  lemma ReadyNext(t: Table, done: set<int>, u: Table, id: int)
    requires Agree(t) && ReadyFor(t, done, u) && id in t.auto && id !in done
    ensures ReadyFor(t, done + {id}, ReadyOne(u, id))
  {
    var v := ReadyOne(u, id);
    assert Unpaused(t, done + {id}, v);
    RewatchedNext(t, done, u.polled, id);
  }

  lemma RewatchedNext(t: Table, done: set<int>, polled: map<int, Poll>, id: int)
    requires Agree(t) && Rewatched(t, done, polled) && id in t.auto && id !in done
    ensures var s := t.sockets[id];
      Rewatched(t, done + {id}, if Wakes(t, id) then AddFD(polled, s.fd, Poll(s.direction, id)) else polled)
  {
    assert id in t.sockets && Fits(t, id);
  }

  /** After workerReady nothing is auto-paused, a socket is paused only by hand, and every other socket that was
      auto-paused and has a receiver is watched again, in its recorded direction. */
  lemma ReadyKeeps(t: Table, u: Table)
    requires Agree(t) && ReadyFor(t, t.auto, u)
    ensures Agree(u.(auto := {}))
    ensures forall id <- u.sockets :: u.sockets[id].paused <==> id in u.manual
    ensures forall id <- t.auto :: id !in t.manual && t.sockets[id].receiver && t.sockets[id].fd >= 0 ==>
      t.sockets[id].fd in u.polled && u.polled[t.sockets[id].fd] == Poll(t.sockets[id].direction, id)
  {
    var v := u.(auto := {});
    forall id | id in u.sockets ensures Fits(v, id) {
      assert Fits(t, id);
    }
  }

  // ---- the timers ----

  /** -1 marks a timer that has run out. */
  function NextTimer(timeelapsed: int): int {
    if timeelapsed + TICKPERIOD >= CONNECT_TIMEOUT_MS then -1 else timeelapsed + TICKPERIOD
  }

  function Advanced(timers: map<int, int>): map<int, int> {
    map id | id in timers :: NextTimer(timers[id])
  }

  lemma AllAdvanced(timers: map<int, int>, after: map<int, int>)
    requires after.Keys == timers.Keys && forall id <- timers :: after[id] == NextTimer(timers[id])
    ensures after == Advanced(timers)
  {
    var u := Advanced(timers);
    assert u.Keys == timers.Keys;
    forall id | id in u ensures id in after && after[id] == u[id] {
      assert id in after.Keys;
    }
    assert after == u;
  }

  function Late(timers: map<int, int>): set<int> { set id | id in timers && timers[id] == -1 }

  function FDsOf(t: Table, ids: set<int>): set<int> { set id | id in ids && id in t.sockets :: t.sockets[id].fd }

  /** Closing a set of sockets one by one, in any order. */
  function CloseAll(t: Table, ids: set<int>): Table {
    Table(t.sockets - ids, t.timers - ids, t.auto - ids, t.manual - ids,
          t.polled - FDsOf(t, ids), t.next)
  }

  lemma CloseNone(t: Table)
    ensures CloseAll(t, {}) == t
  {
    assert FDsOf(t, {}) == {};
  }

  lemma TimersOfSockets(t: Table)
    requires Agree(t)
    ensures forall id <- t.timers :: id in t.sockets
  {
  }

  lemma CloseOneMore(t: Table, ids: set<int>, id: int)
    requires id in t.sockets && id !in ids
    ensures Close(CloseAll(t, ids), id) == CloseAll(t, ids + {id})
  {
    var u, v := Close(CloseAll(t, ids), id), CloseAll(t, ids + {id});
    assert u.sockets == v.sockets && u.timers == v.timers && u.auto == v.auto && u.manual == v.manual;
    assert u.polled == v.polled;
  }

  /** A tick: timers advance, and those that run out close their sockets. */
  function Tick(t: Table): Table {
    var late := Late(Advanced(t.timers));
    CloseAll(t.(timers := Advanced(t.timers)), late)
  }

  /** What a tick makes of one timer. */
  lemma TickedTimer(t: Table, id: int)
    requires Agree(t) && id in t.timers
    ensures id in Tick(t).sockets <==> t.timers[id] + TICKPERIOD < CONNECT_TIMEOUT_MS
    ensures id in Tick(t).timers <==> id in Tick(t).sockets
    ensures id in Tick(t).timers ==>
      Tick(t).timers[id] == t.timers[id] + TICKPERIOD && Tick(t).sockets[id] == t.sockets[id]
  {
    assert Fits(t, id);
  }

  lemma TickKeeps(t: Table)
    requires Agree(t)
    ensures Agree(Tick(t))
  {
    var u := Tick(t);
    forall id | id in u.sockets ensures Fits(u, id) {
      assert Fits(t, id);
      if id in t.timers {
        TickedTimer(t, id);
      }
      assert t.sockets[id].fd < 0 ==> t.sockets[id].fd !in t.polled;
      assert forall k <- t.sockets :: k != id && t.sockets[k].fd == t.sockets[id].fd ==> t.sockets[id].fd < 0;
    }
    forall fd <- u.polled ensures u.polled[fd].id in u.sockets {
      assert t.sockets[t.polled[fd].id].fd == fd;
    }
  }

  lemma TimerRuns(t: Table, id: int)
    requires Agree(t) && id in t.timers
    ensures id in t.sockets && id < t.next && ConnectingType(t.sockets[id].ty)
    ensures 0 <= t.timers[id] < CONNECT_TIMEOUT_MS
  {
    assert Fits(t, id);
  }
}
