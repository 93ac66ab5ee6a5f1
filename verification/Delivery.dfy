/** How events get from the I/O thread and other producers to the worker thread, and how an overloaded worker
    has sockets paused: a state machine whose steps are the atomic actions of the threads. */
module Delivery {

  const READY_SIZE := 8
  const OVERLOAD_SIZE := 32
  const SIGNAL_SLOTS := 10

  /** An event for a socket, or for none when sock is negative. `read` marks the external-descriptor event
      whose dispatcher waits until it has been handled. */
  datatype Ev = Ev(sock: int, read: bool)

  /** A blocking queue: its list, and the count of its content semaphore. */
  datatype Lane = Lane(items: seq<Ev>, content: nat)

  datatype Which = High | Data | Low

  datatype Lanes = Lanes(high: Lane, data: Lane, low: Lane) {
    function Of(w: Which): Lane {
      match w
      case High => high
      case Data => data
      case Low => low
    }

    function With(w: Which, lane: Lane): Lanes {
      match w
      case High => this.(high := lane)
      case Data => this.(data := lane)
      case Low => this.(low := lane)
    }

    /** BlockingQueue::push. */
    function Push(w: Which, e: Ev): Lanes {
      With(w, Lane(Of(w).items + [e], Of(w).content + 1))
    }

    /** The two halves of BlockingQueue::pop: the wait on the content semaphore, and the rest. */
    function Wait(w: Which): Lanes
      requires Of(w).content > 0
    {
      With(w, Of(w).(content := Of(w).content - 1))
    }

    function Pop(w: Which): Lanes
      requires Of(w).items != []
    {
      With(w, Of(w).(items := Of(w).items[1..]))
    }

    function Size(w: Which): nat { |Of(w).items| }

    function Total(): nat { Size(High) + Size(Data) + Size(Low) }
  }

  /** The queues whose sizes a test has still to read: C++ leaves the order of the operands of + open. */
  datatype Unread = Unread(high: bool, data: bool, low: bool) {
    predicate Has(w: Which) {
      match w
      case High => high
      case Data => data
      case Low => low
    }

    function Without(w: Which): Unread {
      match w
      case High => this.(high := false)
      case Data => this.(data := false)
      case Low => this.(low := false)
    }

    predicate Done() { !high && !data && !low }
  }

  datatype Owner = Nobody | IoThread | WorkerThread

  /** Where the worker is in its loop. */
  datatype Worker =
    | Waiting                            // before event.wait()
    | Woken                              // before signalevents.hasEvent()
    | Signalled                          // before getClearFirst()
    | NoSignal                           // before highprioqueue.size()
    | NoHigh                             // before dataqueue.size()
    | Popping(q: Which)                  // before the content wait of pop()
    | Taking(q: Which)                   // before the rest of pop()
    | Handling(e: Ev)                    // running the receiver
    | Handled                            // before reading the flags
    | Summing(left: Unread, n: nat)      // adding up the queue sizes
    | Clear                              // before overloaded = false
    | Clearing                           // before lowpriooverloaded = false
    | Notify                             // before the lock in workerReady()
    | Pass                               // in workerReady(), holding the lock

  /** Where the I/O thread is. From Inside to Pause it holds the lock. */
  datatype Io =
    | Outside
    | Inside
    | Pushed(sock: int, asks: bool)                                // before event.post(); asks for the overload answer
    | Counting(sock: int, low: bool, left: Unread, n: nat)         // adding up the queue sizes
    | Raise(sock: int)                                             // before overloaded = true
    | RaiseLow(sock: int, low: bool)                               // before lowpriooverloaded = true
    | Read(sock: int, low: bool)                                   // before reading the flag to return
    | Pause(sock: int)                                             // before autoPause()
    | Reading(sock: int)                                           // lock given up, before the push
    | ReadPushed                                                   // before event.post()
    | ReadWait                                                     // before readdata.wait()

  datatype State = State(
    queues: Lanes,
    event: nat, signals: nat, readdata: nat,
    posting: nat,                 // producers other than the I/O thread between push and post
    worker: Worker, io: Io, lock: Owner,
    overloaded: bool, lowoverloaded: bool,
    auto: set<int>,
    external: set<int>,           // external descriptors, whose events go to the high queue
    lowered: set<int>,            // sockets whose priority has dropped to low
    dispatched: seq<Ev>, delivered: seq<Ev>,
    late: bool)                   // a flag was raised with nothing queued or in hand, since the last clearing

  datatype Action =
    // I/O thread
    | TakeLock | GiveLock
    | Dispatch(sock: int, asks: bool) | Post | Count(q: Which) | RaiseFlag | RaiseLowFlag | ReadFlag | AutoPause
    | IgnoreFlag                  // the answer to a full TLS block, and to a datagram, is not looked at
    | Lower(sock: int) | IoClose(sock: int)
    | GoRead(sock: int) | PushRead | PostRead | WaitRead
    // worker thread
    | Wake | TestSignals | ClearSignal | TestHigh | TestData | WaitContent | Take | Return | TestFlags | Sum(q: Which)
    | ClearFlag | ClearLowFlag | LockReady | Ready
    // either of them, or another thread
    | Produce(sock: int, q: Which) | PostOther | Signal | Close(sock: int)

  /** The queue of a socket's priority. */
  function QueueOf(st: State, sock: int): Which {
    if sock in st.external then High else if sock in st.lowered then Low else Data
  }

  predicate HoldsLock(io: Io) {
    !(io.Outside? || io.Reading? || io.ReadPushed? || io.ReadWait?)
  }

  /** Something is queued, or the worker has an event in hand or is about to un-pause sockets. */
  predicate Busy(st: State) {
    st.queues.Total() > 0
    || st.worker.Handling? || st.worker.Handled? || st.worker.Summing?
    || st.worker.Clear? || st.worker.Clearing? || st.worker.Notify? || st.worker.Pass?
  }

  predicate CanIo(st: State, a: Action) {
    match a
    case TakeLock => st.io.Outside? && st.lock == Nobody
    case GiveLock => st.io.Inside?
    case Dispatch(sock, asks) => st.io.Inside? && sock !in st.external
    case Post => st.io.Pushed?
    case Count(q) => st.io.Counting? && st.io.left.Has(q)
    case RaiseFlag => st.io.Raise?
    case RaiseLowFlag => st.io.RaiseLow?
    case ReadFlag => st.io.Read?
    case AutoPause => st.io.Pause?
    case IgnoreFlag => st.io.Read?
    case Lower(sock) => st.io.Inside? && sock !in st.external && sock >= 0
    case IoClose(sock) => st.io.Inside?
    case GoRead(sock) => st.io.Inside? && sock in st.external
    case PushRead => st.io.Reading?
    case PostRead => st.io.ReadPushed?
    case WaitRead => st.io.ReadWait? && st.readdata > 0
    case _ => false
  }

  function NextIo(st: State, a: Action): State
    requires CanIo(st, a)
  {
    match a
    case TakeLock => st.(io := Inside, lock := IoThread)
    case GiveLock => st.(io := Outside, lock := Nobody)
    case Dispatch(sock, asks) =>
      st.(queues := st.queues.Push(QueueOf(st, sock), Ev(sock, false)),
          dispatched := st.dispatched + [Ev(sock, false)], io := Pushed(sock, asks))
    case Post =>
      var low := st.io.sock in st.lowered;
      st.(event := st.event + 1,
          io := if !st.io.asks then Inside
                else Counting(st.io.sock, low, Unread(true, true, low), 0))
    case Count(q) =>
      var left, n := st.io.left.Without(q), st.io.n + st.queues.Size(q);
      st.(io := if !left.Done() then Counting(st.io.sock, st.io.low, left, n)
                else if n < OVERLOAD_SIZE then Read(st.io.sock, st.io.low)
                else if st.io.low then RaiseLow(st.io.sock, true)
                else Raise(st.io.sock))
    case RaiseFlag => st.(overloaded := true, late := st.late || !Busy(st), io := RaiseLow(st.io.sock, false))
    case RaiseLowFlag => st.(lowoverloaded := true, late := st.late || !Busy(st), io := Read(st.io.sock, st.io.low))
    case ReadFlag =>
      st.(io := if (if st.io.low then st.lowoverloaded else st.overloaded) then Pause(st.io.sock) else Inside)
    case AutoPause => st.(auto := st.auto + {st.io.sock}, io := Inside)
    case IgnoreFlag => st.(io := Inside)
    case Lower(sock) => st.(lowered := st.lowered + {sock})
    case IoClose(sock) => st.(auto := st.auto - {sock})
    case GoRead(sock) => st.(io := Reading(sock), lock := Nobody)
    case PushRead =>
      st.(queues := st.queues.Push(High, Ev(st.io.sock, true)),
          dispatched := st.dispatched + [Ev(st.io.sock, true)], io := ReadPushed)
    case PostRead => st.(event := st.event + 1, io := ReadWait)
    case WaitRead => st.(readdata := st.readdata - 1, io := Outside)
  }

  predicate CanWork(st: State, a: Action) {
    match a
    case Wake => st.worker.Waiting? && st.event > 0
    case TestSignals => st.worker.Woken?
    case ClearSignal => st.worker.Signalled? && st.signals > 0
    case TestHigh => st.worker.NoSignal?
    case TestData => st.worker.NoHigh?
    case WaitContent => st.worker.Popping? && st.queues.Of(st.worker.q).content > 0
    case Take => st.worker.Taking? && st.queues.Of(st.worker.q).items != []
    case Return => st.worker.Handling?
    case TestFlags => st.worker.Handled?
    case Sum(q) => st.worker.Summing? && st.worker.left.Has(q)
    case ClearFlag => st.worker.Clear?
    case ClearLowFlag => st.worker.Clearing?
    case LockReady => st.worker.Notify? && st.lock == Nobody
    case Ready => st.worker.Pass?
    case _ => false
  }

  function NextWork(st: State, a: Action): State
    requires CanWork(st, a)
  {
    match a
    case Wake => st.(event := st.event - 1, worker := Woken)
    case TestSignals => st.(worker := if st.signals > 0 then Signalled else NoSignal)
    case ClearSignal => st.(signals := st.signals - 1, worker := Waiting)
    case TestHigh => st.(worker := if st.queues.Size(High) > 0 then Popping(High) else NoHigh)
    case TestData => st.(worker := if st.queues.Size(Data) > 0 then Popping(Data) else Popping(Low))
    case WaitContent => st.(queues := st.queues.Wait(st.worker.q), worker := Taking(st.worker.q))
    case Take =>
      var e := st.queues.Of(st.worker.q).items[0];
      st.(queues := st.queues.Pop(st.worker.q), worker := Handling(e), delivered := st.delivered + [e])
    case Return =>
      st.(readdata := if st.worker.e.read then st.readdata + 1 else st.readdata, worker := Handled)
    case TestFlags =>
      st.(worker := if st.overloaded || st.lowoverloaded then Summing(Unread(true, true, true), 0) else Waiting)
    case Sum(q) =>
      var left, n := st.worker.left.Without(q), st.worker.n + st.queues.Size(q);
      st.(worker := if !left.Done() then Summing(left, n)
                    else if n <= READY_SIZE then Clear
                    else Waiting)
    case ClearFlag => st.(overloaded := false, late := false, worker := Clearing)
    case ClearLowFlag => st.(lowoverloaded := false, worker := Notify)
    case LockReady => st.(lock := WorkerThread, worker := Pass)
    case Ready => st.(auto := {}, lock := Nobody, worker := Waiting)
  }

  predicate CanOther(st: State, a: Action) {
    match a
    case Produce(sock, q) => sock < 0 || (sock !in st.external && q == QueueOf(st, sock))
    case PostOther => st.posting > 0
    case Signal => st.signals < SIGNAL_SLOTS
    case Close(sock) => st.lock == Nobody
    case _ => false
  }

  function NextOther(st: State, a: Action): State
    requires CanOther(st, a)
  {
    match a
    case Produce(sock, q) =>
      st.(queues := st.queues.Push(q, Ev(sock, false)),
          dispatched := st.dispatched + [Ev(sock, false)], posting := st.posting + 1)
    case PostOther => st.(event := st.event + 1, posting := st.posting - 1)
    case Signal => st.(signals := st.signals + 1, posting := st.posting + 1)
    case Close(sock) => st.(auto := st.auto - {sock})
  }

  predicate Can(st: State, a: Action) {
    CanIo(st, a) || CanWork(st, a) || CanOther(st, a)
  }

  function Next(st: State, a: Action): State
    requires Can(st, a)
  {
    if CanIo(st, a) then NextIo(st, a)
    else if CanWork(st, a) then NextWork(st, a)
    else NextOther(st, a)
  }

  ghost predicate Initial(st: State) {
    && st.queues == Lanes(Lane([], 0), Lane([], 0), Lane([], 0))
    && st.event == 0 && st.signals == 0 && st.readdata == 0 && st.posting == 0
    && st.worker == Waiting && st.io == Outside && st.lock == Nobody
    && !st.overloaded && !st.lowoverloaded && st.auto == {} && st.lowered == {}
    && st.dispatched == [] && st.delivered == [] && !st.late
    && forall sock <- st.external :: sock >= 0
  }

  ghost predicate Runs(st: State, actions: seq<Action>, after: State)
    decreases |actions|
  {
    if actions == [] then st == after
    else Can(st, actions[0]) && Runs(Next(st, actions[0]), actions[1..], after)
  }

  // ---- accounting ----

  /** 1 while the worker holds a token of the event semaphore that it has not yet turned into an event. */
  function Token(w: Worker): nat {
    if w.Woken? || w.Signalled? || w.NoSignal? || w.NoHigh? || w.Popping? || w.Taking? then 1 else 0
  }

  /** 1 while the I/O thread is between push and post. */
  function Owed(io: Io): nat { if io.Pushed? || io.ReadPushed? then 1 else 0 }

  /** The event semaphore, the worker's token and the posts still to come account for everything queued. */
  ghost predicate Accounted(st: State) {
    st.event + Token(st.worker) + st.posting + Owed(st.io) == st.queues.Total() + st.signals
  }

  function SizeRead(queues: Lanes, left: Unread): nat {
    (if left.high then 0 else queues.Size(High)) + (if left.data then 0 else queues.Size(Data))
      + (if left.low then 0 else queues.Size(Low))
  }

  /** What the worker has seen stays true: nobody else takes anything away. */
  ghost predicate Seen(st: State) {
    match st.worker
    case Signalled => st.signals > 0
    case NoSignal => st.queues.Total() > 0
    case NoHigh => st.queues.Size(Data) + st.queues.Size(Low) > 0
    case Popping(q) => st.queues.Size(q) > 0
    case Taking(q) => st.queues.Size(q) > 0
    case Summing(left, n) => !left.Done() && n <= SizeRead(st.queues, left)
    case _ => true
  }

  ghost predicate LaneCounted(queues: Lanes, w: Worker, q: Which) {
    queues.Of(q).content == queues.Size(q) - (if w == Taking(q) then 1 else 0)
  }

  /** A content semaphore counts what its queue holds and the worker has not begun to take. */
  ghost predicate Counted(queues: Lanes, w: Worker) {
    LaneCounted(queues, w, High) && LaneCounted(queues, w, Data) && LaneCounted(queues, w, Low)
  }

  lemma PushTotal(queues: Lanes, q: Which, e: Ev)
    ensures queues.Push(q, e).Total() == queues.Total() + 1
  {
  }

  lemma AccountedIo(st: State, a: Action)
    requires Accounted(st) && CanIo(st, a)
    ensures Accounted(NextIo(st, a))
  {
    hide QueueOf, Lanes.Push, Lanes.Size, Lanes.Total, Busy;
    match a
    case Dispatch(sock, _) => PushTotal(st.queues, QueueOf(st, sock), Ev(sock, false));
    case PushRead => PushTotal(st.queues, High, Ev(st.io.sock, true));
    case _ =>
  }

  lemma AccountedWork(st: State, a: Action)
    requires Accounted(st) && CanWork(st, a)
    ensures Accounted(NextWork(st, a))
  {
  }

  lemma AccountedOther(st: State, a: Action)
    requires Accounted(st) && CanOther(st, a)
    ensures Accounted(NextOther(st, a))
  {
  }

  lemma SeenIo(st: State, a: Action)
    requires Seen(st) && CanIo(st, a)
    ensures Seen(NextIo(st, a))
  {
  }

  lemma SeenWork(st: State, a: Action)
    requires Accounted(st) && Seen(st) && CanWork(st, a)
    ensures Seen(NextWork(st, a))
  {
  }

  lemma SeenOther(st: State, a: Action)
    requires Seen(st) && CanOther(st, a)
    ensures Seen(NextOther(st, a))
  {
  }

  lemma PushCounted(queues: Lanes, w: Worker, q: Which, e: Ev)
    requires Counted(queues, w)
    ensures Counted(queues.Push(q, e), w)
  {
  }

  lemma CountedIo(st: State, a: Action)
    requires Counted(st.queues, st.worker) && CanIo(st, a)
    ensures Counted(NextIo(st, a).queues, NextIo(st, a).worker)
  {
    hide Counted;
    match a
    case Dispatch(sock, _) => PushCounted(st.queues, st.worker, QueueOf(st, sock), Ev(sock, false));
    case PushRead => PushCounted(st.queues, st.worker, High, Ev(st.io.sock, true));
    case _ =>
  }

  lemma WaitCounted(queues: Lanes, q: Which)
    requires Counted(queues, Popping(q)) && queues.Of(q).content > 0
    ensures Counted(queues.Wait(q), Taking(q))
  {
  }

  lemma TakeCounted(queues: Lanes, q: Which, e: Ev)
    requires Counted(queues, Taking(q)) && queues.Of(q).items != []
    ensures Counted(queues.Pop(q), Handling(e))
  {
  }

  lemma CountedWork(st: State, a: Action)
    requires Counted(st.queues, st.worker) && CanWork(st, a)
    ensures Counted(NextWork(st, a).queues, NextWork(st, a).worker)
  {
    if a.WaitContent? {
      WaitCounted(st.queues, st.worker.q);
    } else if a.Take? {
      TakeCounted(st.queues, st.worker.q, st.queues.Of(st.worker.q).items[0]);
    }
  }

  lemma CountedOther(st: State, a: Action)
    requires Counted(st.queues, st.worker) && CanOther(st, a)
    ensures Counted(NextOther(st, a).queues, NextOther(st, a).worker)
  {
    hide Counted;
    if a.Produce? {
      PushCounted(st.queues, st.worker, a.q, Ev(a.sock, false));
    }
  }

  // ---- order ----

  /** The events of one socket. */
  function For(sock: int, events: seq<Ev>): seq<Ev> {
    if events == [] then []
    else if events[0].sock == sock then [events[0]] + For(sock, events[1..])
    else For(sock, events[1..])
  }

  lemma {:induction false} ForAppend(sock: int, events: seq<Ev>, e: Ev)
    ensures For(sock, events + [e]) == if e.sock == sock then For(sock, events) + [e] else For(sock, events)
  {
    if events != [] {
      ForAppend(sock, events[1..], e);
      assert (events + [e])[1..] == events[1..] + [e];
    }
  }

  lemma {:induction false} NoneFor(sock: int, events: seq<Ev>)
    ensures For(sock, events) == [] <==> forall e <- events :: e.sock != sock
  {
    if events != [] {
      NoneFor(sock, events[1..]);
    }
  }

  /** Which sockets' events a queue may hold. */
  ghost predicate Sorted(queues: Lanes, external: set<int>, lowered: set<int>) {
    && (forall e <- queues.high.items :: e.sock >= 0 ==> e.sock in external)
    && (forall e <- queues.data.items :: e.sock >= 0 ==> e.sock !in external)
    && (forall e <- queues.low.items :: e.sock >= 0 ==> e.sock !in external && e.sock in lowered)
  }

  /** When the worker takes from the low queue, the front event's socket has nothing in the data queue: it had
      nothing there when the worker looked, and its priority only ever drops. */
  ghost predicate FrontClear(queues: Lanes, w: Worker) {
    w == Popping(Low) || w == Taking(Low) ==>
      queues.low.items != [] &&
      (queues.low.items[0].sock >= 0 ==> forall e <- queues.data.items :: e.sock != queues.low.items[0].sock)
  }

  ghost predicate Orderly(st: State) {
    Sorted(st.queues, st.external, st.lowered) && FrontClear(st.queues, st.worker)
  }

  /** What has been delivered for a socket, followed by what is queued for it, is what was dispatched. */
  ghost predicate InOrder(sock: int, delivered: seq<Ev>, queues: Lanes, dispatched: seq<Ev>) {
    For(sock, delivered) + For(sock, queues.high.items) + For(sock, queues.data.items) + For(sock, queues.low.items)
      == For(sock, dispatched)
  }

  lemma PushSorted(st: State, q: Which, e: Ev)
    requires Orderly(st) && (e.sock >= 0 ==> q == QueueOf(st, e.sock))
    ensures Sorted(st.queues.Push(q, e), st.external, st.lowered) && FrontClear(st.queues.Push(q, e), st.worker)
  {
  }

  lemma WaitSorted(st: State, q: Which)
    requires Orderly(st) && st.worker == Popping(q) && st.queues.Of(q).content > 0
    ensures Sorted(st.queues.Wait(q), st.external, st.lowered) && FrontClear(st.queues.Wait(q), Taking(q))
  {
  }

  lemma TakeSorted(st: State, q: Which, e: Ev)
    requires Orderly(st) && st.queues.Of(q).items != []
    ensures Sorted(st.queues.Pop(q), st.external, st.lowered) && FrontClear(st.queues.Pop(q), Handling(e))
  {
  }

  lemma LowerSorted(st: State, sock: int)
    requires Orderly(st)
    ensures Sorted(st.queues, st.external, st.lowered + {sock})
  {
  }

  lemma SortedIo(st: State, a: Action)
    requires Orderly(st) && CanIo(st, a) && (st.io.Reading? ==> st.io.sock in st.external)
    ensures Orderly(NextIo(st, a))
  {
    hide Sorted, FrontClear;
    match a
    case Dispatch(sock, _) => PushSorted(st, QueueOf(st, sock), Ev(sock, false));
    case PushRead => PushSorted(st, High, Ev(st.io.sock, true));
    case Lower(sock) => LowerSorted(st, sock);
    case _ =>
  }

  lemma SortedWork(st: State, a: Action)
    requires Orderly(st) && Seen(st) && CanWork(st, a)
    ensures Orderly(NextWork(st, a))
  {
    hide Sorted;
    match a
    case WaitContent => WaitSorted(st, st.worker.q);
    case Take => TakeSorted(st, st.worker.q, st.queues.Of(st.worker.q).items[0]);
    case _ =>
  }

  lemma SortedOther(st: State, a: Action)
    requires Orderly(st) && CanOther(st, a)
    ensures Orderly(NextOther(st, a))
  {
    hide Sorted, FrontClear;
    if a.Produce? {
      PushSorted(st, a.q, Ev(a.sock, false));
    }
  }

  /** A push to the queue the socket's events belong in. */
  lemma PushInOrder(st: State, sock: int, q: Which, e: Ev)
    requires InOrder(sock, st.delivered, st.queues, st.dispatched) && Orderly(st) && sock >= 0
    requires e.sock >= 0 ==> q == QueueOf(st, e.sock)
    ensures InOrder(sock, st.delivered, st.queues.Push(q, e), st.dispatched + [e])
  {
    hide For;
    var h, d, l := st.queues.high.items, st.queues.data.items, st.queues.low.items;
    ForAppend(sock, st.dispatched, e);
    ForAppend(sock, st.queues.Of(q).items, e);
    NoneFor(sock, h);
    NoneFor(sock, d);
    NoneFor(sock, l);
  }

  /** An event goes from the front of a list to the end of another. */
  lemma MoveFront(sock: int, to: seq<Ev>, items: seq<Ev>)
    requires items != []
    ensures For(sock, to + [items[0]]) + For(sock, items[1..]) == For(sock, to) + For(sock, items)
    ensures items[0].sock != sock ==>
      For(sock, to + [items[0]]) == For(sock, to) && For(sock, items[1..]) == For(sock, items)
  {
    ForAppend(sock, to, items[0]);
  }

  /** Nothing of a socket is queued before the event the worker is about to take for it. */
  lemma NothingBefore(st: State, q: Which, sock: int)
    requires Orderly(st) && st.worker == Taking(q) && st.queues.Of(q).items != []
    requires st.queues.Of(q).items[0].sock == sock >= 0
    ensures q != High ==> For(sock, st.queues.high.items) == []
    ensures q == Low ==> For(sock, st.queues.data.items) == []
  {
    NoneFor(sock, st.queues.high.items);
    NoneFor(sock, st.queues.data.items);
  }

  /** Taking the front of a queue. */
  lemma TakeInOrder(st: State, sock: int, q: Which)
    requires InOrder(sock, st.delivered, st.queues, st.dispatched) && Orderly(st) && sock >= 0
    requires st.worker == Taking(q) && st.queues.Of(q).items != []
    ensures InOrder(sock, st.delivered + [st.queues.Of(q).items[0]], st.queues.Pop(q), st.dispatched)
  {
    hide For, Orderly;
    var items := st.queues.Of(q).items;
    MoveFront(sock, st.delivered, items);
    if items[0].sock == sock {
      NothingBefore(st, q, sock);
      var before, after := For(sock, st.delivered), For(sock, st.delivered + [items[0]]);
      assert before + [] == before && after + [] == after;
    }
  }

  lemma WaitInOrder(st: State, sock: int, q: Which)
    requires InOrder(sock, st.delivered, st.queues, st.dispatched) && st.queues.Of(q).content > 0
    ensures InOrder(sock, st.delivered, st.queues.Wait(q), st.dispatched)
  {
  }

  lemma OrderIo(st: State, a: Action, sock: int)
    requires InOrder(sock, st.delivered, st.queues, st.dispatched) && Orderly(st) && sock >= 0
    requires CanIo(st, a) && (st.io.Reading? ==> st.io.sock in st.external)
    ensures var after := NextIo(st, a); InOrder(sock, after.delivered, after.queues, after.dispatched)
  {
    hide InOrder, Orderly, Lanes.Push, Busy;
    match a
    case Dispatch(s, _) => PushInOrder(st, sock, QueueOf(st, s), Ev(s, false));
    case PushRead => PushInOrder(st, sock, High, Ev(st.io.sock, true));
    case _ =>
  }

  lemma OrderWork(st: State, a: Action, sock: int)
    requires InOrder(sock, st.delivered, st.queues, st.dispatched) && Orderly(st) && sock >= 0 && CanWork(st, a)
    ensures var after := NextWork(st, a); InOrder(sock, after.delivered, after.queues, after.dispatched)
  {
    hide InOrder, Orderly, Lanes.Wait, Lanes.Pop;
    match a
    case Take => TakeInOrder(st, sock, st.worker.q);
    case WaitContent => WaitInOrder(st, sock, st.worker.q);
    case _ =>
  }

  lemma OrderOther(st: State, a: Action, sock: int)
    requires InOrder(sock, st.delivered, st.queues, st.dispatched) && Orderly(st) && sock >= 0 && CanOther(st, a)
    ensures var after := NextOther(st, a); InOrder(sock, after.delivered, after.queues, after.dispatched)
  {
    hide InOrder, Orderly, Lanes.Push;
    if a.Produce? {
      PushInOrder(st, sock, a.q, Ev(a.sock, false));
    }
  }

  lemma OrderStep(st: State, a: Action, sock: int)
    requires InOrder(sock, st.delivered, st.queues, st.dispatched) && Orderly(st) && sock >= 0
    requires Can(st, a) && (st.io.Reading? ==> st.io.sock in st.external)
    ensures var after := Next(st, a); InOrder(sock, after.delivered, after.queues, after.dispatched)
  {
    hide InOrder, Orderly, CanIo, NextIo, CanWork, NextWork, CanOther, NextOther;
    if CanIo(st, a) {
      OrderIo(st, a, sock);
    } else if CanWork(st, a) {
      OrderWork(st, a, sock);
    } else {
      OrderOther(st, a, sock);
    }
  }

  // ---- flow control ----

  ghost predicate Locked(st: State) {
    (HoldsLock(st.io) <==> st.lock == IoThread) && (st.worker.Pass? <==> st.lock == WorkerThread)
  }

  /** Between clearing the flags and the end of workerReady(). */
  predicate Unpausing(w: Worker) { w.Clearing? || w.Notify? || w.Pass? }

  predicate Pausing(st: State) { st.auto != {} || st.io.Pause? }

  /** While anything is auto-paused a flag is set, or the worker is on its way to un-pause it. */
  ghost predicate WakeUpPending(st: State) {
    Pausing(st) ==> st.overloaded || st.lowoverloaded || Unpausing(st.worker)
  }

  /** The I/O thread has pushed an event and may yet pause its socket. */
  predicate Deciding(io: Io) { io.Pushed? || io.Counting? || io.Raise? || io.RaiseLow? || io.Read? }

  /** While nothing is queued or in hand, only a flag raised that late keeps anything paused. */
  ghost predicate PausedOnlyLate(st: State) {
    Pausing(st) && !Busy(st) ==> st.late
  }

  /** And only such a flag can make the I/O thread pause a socket then. */
  ghost predicate RaisedOnlyLate(st: State) {
    Deciding(st.io) && (st.overloaded || st.lowoverloaded) && !Busy(st) ==> st.late
  }

  lemma LockedIo(st: State, a: Action)
    requires Locked(st) && CanIo(st, a)
    ensures Locked(NextIo(st, a))
  {
    hide QueueOf, Lanes.Push, Lanes.Size, Busy;
  }

  lemma LockedWork(st: State, a: Action)
    requires Locked(st) && CanWork(st, a)
    ensures Locked(NextWork(st, a))
  {
  }

  lemma LockedOther(st: State, a: Action)
    requires Locked(st) && CanOther(st, a)
    ensures Locked(NextOther(st, a))
  {
  }

  lemma WakeUpIo(st: State, a: Action)
    requires WakeUpPending(st) && CanIo(st, a)
    ensures WakeUpPending(NextIo(st, a))
  {
    hide QueueOf, Lanes.Push, Lanes.Size, Busy;
  }

  lemma WakeUpWork(st: State, a: Action)
    requires Locked(st) && WakeUpPending(st) && CanWork(st, a)
    ensures WakeUpPending(NextWork(st, a))
  {
  }

  lemma WakeUpOther(st: State, a: Action)
    requires WakeUpPending(st) && CanOther(st, a)
    ensures WakeUpPending(NextOther(st, a))
  {
  }

  lemma PausedIo(st: State, a: Action)
    requires PausedOnlyLate(st) && RaisedOnlyLate(st) && CanIo(st, a)
    ensures PausedOnlyLate(NextIo(st, a))
  {
    hide QueueOf, Lanes.Push, Lanes.Size, Lanes.Total;
    match a
    case Dispatch(sock, _) => PushTotal(st.queues, QueueOf(st, sock), Ev(sock, false));
    case PushRead => PushTotal(st.queues, High, Ev(st.io.sock, true));
    case _ =>
  }

  lemma PausedWork(st: State, a: Action)
    requires Locked(st) && WakeUpPending(st) && Seen(st) && PausedOnlyLate(st) && CanWork(st, a)
    ensures PausedOnlyLate(NextWork(st, a))
  {
  }

  lemma PausedOther(st: State, a: Action)
    requires PausedOnlyLate(st) && CanOther(st, a)
    ensures PausedOnlyLate(NextOther(st, a))
  {
  }

  lemma RaisedIo(st: State, a: Action)
    requires RaisedOnlyLate(st) && CanIo(st, a)
    ensures RaisedOnlyLate(NextIo(st, a))
  {
    hide QueueOf, Lanes.Push, Lanes.Size, Lanes.Total;
    match a
    case Dispatch(sock, _) => PushTotal(st.queues, QueueOf(st, sock), Ev(sock, false));
    case PushRead => PushTotal(st.queues, High, Ev(st.io.sock, true));
    case _ =>
  }

  lemma RaisedWork(st: State, a: Action)
    requires Locked(st) && Seen(st) && RaisedOnlyLate(st) && CanWork(st, a)
    ensures RaisedOnlyLate(NextWork(st, a))
  {
  }

  lemma RaisedOther(st: State, a: Action)
    requires RaisedOnlyLate(st) && CanOther(st, a)
    ensures RaisedOnlyLate(NextOther(st, a))
  {
  }

  // ---- the I/O thread waiting for an external event ----

  function ReadsIn(events: seq<Ev>): nat {
    if events == [] then 0 else (if events[0].read then 1 else 0) + ReadsIn(events[1..])
  }

  lemma {:induction false} ReadsAppend(events: seq<Ev>, e: Ev)
    ensures ReadsIn(events + [e]) == ReadsIn(events) + (if e.read then 1 else 0)
  {
    if events != [] {
      ReadsAppend(events[1..], e);
      assert (events + [e])[1..] == events[1..] + [e];
    }
  }

  /** The I/O thread waits exactly while its event is queued, in hand, or handled but not yet acknowledged. */
  ghost predicate ReadPending(st: State) {
    && ReadsIn(st.queues.data.items) == ReadsIn(st.queues.low.items) == 0
    && (st.io.Reading? ==> st.io.sock in st.external)
    && st.readdata + ReadsIn(st.queues.high.items)
         + (if st.worker.Handling? && st.worker.e.read then 1 else 0)
       == if st.io.ReadPushed? || st.io.ReadWait? then 1 else 0
  }

  lemma ReadPush(queues: Lanes, q: Which, e: Ev)
    ensures ReadsIn(queues.Push(q, e).Of(q).items) == ReadsIn(queues.Of(q).items) + (if e.read then 1 else 0)
    ensures forall w :: w != q ==> queues.Push(q, e).Of(w) == queues.Of(w)
  {
    ReadsAppend(queues.Of(q).items, e);
  }

  lemma ReadTake(items: seq<Ev>)
    requires items != []
    ensures ReadsIn(items) == (if items[0].read then 1 else 0) + ReadsIn(items[1..])
  {
  }

  lemma ReadIo(st: State, a: Action)
    requires ReadPending(st) && CanIo(st, a)
    ensures ReadPending(NextIo(st, a))
  {
    hide ReadsIn;
    match a
    case Dispatch(s, _) => ReadPush(st.queues, QueueOf(st, s), Ev(s, false));
    case PushRead => ReadPush(st.queues, High, Ev(st.io.sock, true));
    case _ =>
  }

  lemma ReadWork(st: State, a: Action)
    requires ReadPending(st) && CanWork(st, a)
    ensures ReadPending(NextWork(st, a))
  {
    hide ReadsIn;
    if a.Take? {
      ReadTake(st.queues.Of(st.worker.q).items);
    }
  }

  lemma ReadOther(st: State, a: Action)
    requires ReadPending(st) && CanOther(st, a)
    ensures ReadPending(NextOther(st, a))
  {
    hide ReadsIn;
    if a.Produce? {
      ReadPush(st.queues, a.q, Ev(a.sock, false));
    }
  }

  // ---- what every run keeps ----

  ghost predicate Inv(st: State) {
    && Accounted(st) && Seen(st) && Counted(st.queues, st.worker)
    && Orderly(st)
    && (forall sock :: sock >= 0 ==> InOrder(sock, st.delivered, st.queues, st.dispatched))
    && Locked(st) && WakeUpPending(st) && PausedOnlyLate(st) && RaisedOnlyLate(st)
    && ReadPending(st)
  }

  lemma InitialInv(st: State)
    requires Initial(st)
    ensures Inv(st)
  {
  }

  lemma StepKeeps(st: State, a: Action)
    requires Inv(st) && Can(st, a)
    ensures Inv(Next(st, a))
  {
    hide Accounted, Seen, Counted, Orderly, InOrder, Locked, WakeUpPending, PausedOnlyLate, RaisedOnlyLate;
    hide NextIo, NextWork, NextOther;
    var after := Next(st, a);
    forall sock | sock >= 0 ensures InOrder(sock, after.delivered, after.queues, after.dispatched) {
      OrderStep(st, a, sock);
    }
    if CanIo(st, a) {
      AccountedIo(st, a); SeenIo(st, a); CountedIo(st, a); SortedIo(st, a); PausedIo(st, a); RaisedIo(st, a);
      LockedIo(st, a); WakeUpIo(st, a); ReadIo(st, a);
    } else if CanWork(st, a) {
      AccountedWork(st, a); SeenWork(st, a); CountedWork(st, a); SortedWork(st, a); PausedWork(st, a);
      RaisedWork(st, a); LockedWork(st, a); WakeUpWork(st, a); ReadWork(st, a);
    } else {
      AccountedOther(st, a); SeenOther(st, a); CountedOther(st, a); SortedOther(st, a); PausedOther(st, a);
      RaisedOther(st, a); LockedOther(st, a); WakeUpOther(st, a); ReadOther(st, a);
    }
  }

  lemma {:induction false} RunKeeps(st: State, actions: seq<Action>, after: State)
    requires Inv(st) && Runs(st, actions, after)
    ensures Inv(after)
    decreases |actions|
  {
    hide Inv;
    if actions != [] {
      StepKeeps(st, actions[0]);
      RunKeeps(Next(st, actions[0]), actions[1..], after);
    }
  }
}
