/** What every interleaving of the I/O thread, the worker and the other producers guarantees. */
module DeliveryGuarantees {
  import opened Delivery

  // ---- the worker ----

  /** The worker can go on unless it waits for an event or for the I/O thread's lock; in particular no pop and
      no signal look-up ever finds nothing. When it waits with no post to come, nothing is queued. */
  lemma WorkerNeverStuck(st: State, actions: seq<Action>, after: State)
    requires Initial(st) && Runs(st, actions, after)
    ensures after.worker.Popping? ==> CanWork(after, WaitContent)
    ensures after.worker.Taking? ==> CanWork(after, Take)
    ensures after.worker.Signalled? ==> CanWork(after, ClearSignal)
    ensures (exists a :: CanWork(after, a))
      || (after.worker.Waiting? && after.event == 0) || (after.worker.Notify? && after.lock == IoThread)
    ensures after.worker.Waiting? && after.event == 0 && after.posting == 0 && Owed(after.io) == 0 ==>
      after.queues.Total() == 0 && after.signals == 0
  {
    hide Inv, Runs;
    InitialInv(st);
    RunKeeps(st, actions, after);
    InvFacts(after);
    CanGoOn(after);
  }

  /** The step the worker takes next when it needs nothing but its turn. */
  function Turn(w: Worker): Action {
    match w
    case Waiting => Wake
    case Woken => TestSignals
    case Signalled => ClearSignal
    case NoSignal => TestHigh
    case NoHigh => TestData
    case Popping(_) => WaitContent
    case Taking(_) => Take
    case Handling(_) => Return
    case Handled => TestFlags
    case Summing(left, _) => Sum(if left.high then High else if left.data then Data else Low)
    case Clear => ClearFlag
    case Clearing => ClearLowFlag
    case Notify => LockReady
    case Pass => Ready
  }

  lemma CanGoOn(st: State)
    requires Locked(st) && Seen(st) && Counted(st.queues, st.worker)
    ensures CanWork(st, Turn(st.worker))
      || (st.worker.Waiting? && st.event == 0) || (st.worker.Notify? && st.lock == IoThread)
  {
  }

  lemma InvFacts(st: State)
    requires Inv(st)
    ensures Accounted(st) && Seen(st) && Counted(st.queues, st.worker) && Locked(st) && WakeUpPending(st)
  {
  }

  /** While the I/O thread waits for an external event, that one event is queued, in hand, or acknowledged. */
  lemma ReaderIsServed(st: State, actions: seq<Action>, after: State)
    requires Initial(st) && Runs(st, actions, after) && after.io.ReadWait?
    ensures after.readdata == 1 || ReadsIn(after.queues.high.items) == 1
      || (after.worker.Handling? && after.worker.e.read)
    ensures after.readdata <= 1
  {
    InitialInv(st);
    RunKeeps(st, actions, after);
  }

  /** A socket's events are delivered in the order they were dispatched, whatever its priority became: those
      delivered, followed by those in the high, the data and the low queue, are those dispatched. */
  lemma DeliveredInOrder(st: State, actions: seq<Action>, after: State, sock: int)
    requires Initial(st) && Runs(st, actions, after) && sock >= 0
    ensures For(sock, after.delivered) + For(sock, after.queues.high.items) + For(sock, after.queues.data.items)
      + For(sock, after.queues.low.items) == For(sock, after.dispatched)
  {
    InitialInv(st);
    RunKeeps(st, actions, after);
    assert InOrder(sock, after.delivered, after.queues, after.dispatched);
  }

  // ---- paused sockets ----

  /** No wake-up is lost: while any socket is auto-paused, a flag is set or the worker is between clearing the
      flags and the end of workerReady(). */
  lemma NoLostWakeUp(st: State, actions: seq<Action>, after: State)
    requires Initial(st) && Runs(st, actions, after) && after.auto != {}
    ensures after.overloaded || after.lowoverloaded || Unpausing(after.worker)
  {
    InitialInv(st);
    RunKeeps(st, actions, after);
  }

  lemma WorkerLeftAlone(st: State, a: Action)
    requires CanIo(st, a) || (CanOther(st, a) && !CanWork(st, a))
    ensures Next(st, a).worker == st.worker
  {
    hide CanWork, NextWork, QueueOf, Lanes.Push;
  }

  lemma UnpausingWork(st: State, a: Action)
    requires Unpausing(st.worker) && CanWork(st, a)
    ensures var after := NextWork(st, a); Unpausing(after.worker) || (after.auto == {} && after.worker == Waiting)
  {
  }

  /** Once the worker has begun to clear the flags, no step of anyone takes it elsewhere but through the end of
      workerReady(), where nothing is auto-paused. */
  lemma UnpausingStep(st: State, a: Action)
    requires Locked(st) && Unpausing(st.worker) && Can(st, a)
    ensures Unpausing(Next(st, a).worker) || (Next(st, a).auto == {} && Next(st, a).worker == Waiting)
  {
    hide CanIo, NextIo, CanWork, NextWork, CanOther, NextOther, Locked;
    if !CanIo(st, a) && CanWork(st, a) {
      UnpausingWork(st, a);
    } else {
      WorkerLeftAlone(st, a);
    }
  }

  /** So every run that takes the worker out of clearing the flags has a moment in which nothing is auto-paused,
      whatever the other threads do in between. */
  lemma {:induction false} PassUnpauses(st: State, actions: seq<Action>, after: State) returns (k: nat, mid: State)
    requires Inv(st) && Runs(st, actions, after) && Unpausing(st.worker) && !Unpausing(after.worker)
    ensures k <= |actions| && Runs(st, actions[..k], mid) && Runs(mid, actions[k..], after)
    ensures mid.auto == {} && mid.worker == Waiting
    decreases |actions|
  {
    hide Inv, Runs, Next, Can;
    FirstStep(st, actions, after);
    var a, rest := actions[0], actions[1..];
    var u := Next(st, a);
    InvFacts(st);
    UnpausingStep(st, a);
    OneStep(st, a);
    if Unpausing(u.worker) {
      StepKeeps(st, a);
      k, mid := PassUnpauses(u, rest, after);
      k := k + 1;
      assert actions[..k] == [a] + rest[..k - 1] && actions[k..] == rest[k - 1..];
      RunsOn(st, [a], u, rest[..k - 1], mid);
    } else {
      k, mid := 1, u;
      assert actions[..1] == [a] && actions[1..] == rest;
    }
  }

  lemma FirstStep(st: State, actions: seq<Action>, after: State)
    requires Runs(st, actions, after) && after != st
    ensures actions != [] && Can(st, actions[0]) && Runs(Next(st, actions[0]), actions[1..], after)
  {
  }

  lemma OneStep(st: State, a: Action)
    requires Can(st, a)
    ensures Runs(st, [a], Next(st, a))
  {
  }

  /** Something stays auto-paused while nothing is queued or in hand only if a flag was raised that late: when
      everything counted for the raise had already been handled. */
  lemma IdleAndPaused(st: State, actions: seq<Action>, after: State)
    requires Initial(st) && Runs(st, actions, after) && after.auto != {} && !Busy(after)
    ensures after.late
  {
    InitialInv(st);
    RunKeeps(st, actions, after);
  }

  /** Closing a paused socket, and not looking at the answer, are the only ways a flag raised late pauses nothing. */
  predicate Pauses(a: Action) { !a.Close? && !a.IoClose? && !a.IgnoreFlag? }

  /** A flag raised late is still set; and a socket is paused for it, or is going to be. */
  ghost predicate Committed(st: State) {
    && (st.io.RaiseLow? && !st.io.low ==> st.overloaded || Unpausing(st.worker))
    && (st.late ==> !Unpausing(st.worker))
    && (st.late ==> st.auto != {} || WillPause(st))
  }

  /** The I/O thread is about to pause a socket, unless the worker clears the flag before. */
  predicate WillPause(st: State) {
    st.io.Pause? || (st.io.RaiseLow? && (st.io.low || st.overloaded))
    || (st.io.Read? && if st.io.low then st.lowoverloaded else st.overloaded)
  }

  lemma CommittedIo(st: State, a: Action)
    requires Committed(st) && CanIo(st, a) && Pauses(a)
    ensures Committed(NextIo(st, a))
  {
  }

  lemma CommittedWork(st: State, a: Action)
    requires Locked(st) && Committed(st) && CanWork(st, a)
    ensures Committed(NextWork(st, a))
  {
  }

  lemma CommittedOther(st: State, a: Action)
    requires Committed(st) && CanOther(st, a) && Pauses(a)
    ensures Committed(NextOther(st, a))
  {
  }

  lemma {:induction false} CommittedRun(st: State, actions: seq<Action>, after: State)
    requires Inv(st) && Committed(st) && Runs(st, actions, after) && forall a <- actions :: Pauses(a)
    ensures Committed(after)
    decreases |actions|
  {
    hide Inv, Committed, NextIo, NextWork, NextOther;
    if actions != [] {
      var a := actions[0];
      InvFacts(st);
      if CanIo(st, a) {
        CommittedIo(st, a);
      } else if CanWork(st, a) {
        CommittedWork(st, a);
      } else {
        CommittedOther(st, a);
      }
      StepKeeps(st, a);
      CommittedRun(Next(st, a), actions[1..], after);
    }
  }

  /** While no socket is closed and every answer is heeded, once the I/O thread is done and the worker idle something
      is paused exactly when a flag was raised late. Otherwise only the half in IdleAndPaused holds: a flag raised late
      pauses nothing when the answer is not looked at, or the socket is closed. */
  lemma PausedExactlyLate(st: State, actions: seq<Action>, after: State)
    requires Initial(st) && Runs(st, actions, after) && forall a <- actions :: Pauses(a)
    requires after.io.Outside? && !Busy(after)
    ensures after.auto != {} <==> after.late
  {
    hide Runs;
    assert Committed(st);
    InitialInv(st);
    CommittedRun(st, actions, after);
    RunKeeps(st, actions, after);
  }

  // ---- the late flag does happen ----

  lemma {:induction false} RunsOn(st: State, xs: seq<Action>, mid: State, ys: seq<Action>, after: State)
    requires Runs(st, xs, mid) && Runs(mid, ys, after)
    ensures Runs(st, xs + ys, after)
    decreases |xs|
  {
    if xs == [] {
      assert xs + ys == ys;
    } else {
      RunsOn(Next(st, xs[0]), xs[1..], mid, ys, after);
      assert (xs + ys)[1..] == xs[1..] + ys;
    }
  }

  lemma Then(st: State, xs: seq<Action>, mid: State, a: Action) returns (ys: seq<Action>, after: State)
    requires Runs(st, xs, mid) && Can(mid, a) && Inv(mid)
    ensures Runs(st, ys, after) && after == Next(mid, a) && Inv(after) && ys == xs + [a]
  {
    ys, after := xs + [a], Next(mid, a);
    assert Runs(mid, [a], after);
    RunsOn(st, xs, mid, [a], after);
    StepKeeps(mid, a);
  }

  lemma ThenIo(st: State, xs: seq<Action>, mid: State, a: Action) returns (ys: seq<Action>, after: State)
    requires Runs(st, xs, mid) && CanIo(mid, a) && Inv(mid)
    ensures Runs(st, ys, after) && after == NextIo(mid, a) && Inv(after) && ys == xs + [a]
  {
    hide Runs, Inv, NextIo;
    ys, after := Then(st, xs, mid, a);
  }

  lemma NotIo(st: State, a: Action)
    requires CanWork(st, a)
    ensures !CanIo(st, a)
  {
  }

  lemma ThenWork(st: State, xs: seq<Action>, mid: State, a: Action) returns (ys: seq<Action>, after: State)
    requires Runs(st, xs, mid) && CanWork(mid, a) && Inv(mid)
    ensures Runs(st, ys, after) && after == NextWork(mid, a) && Inv(after) && ys == xs + [a]
  {
    hide Runs, Inv, CanIo, NextWork, CanWork;
    NotIo(mid, a);
    ys, after := Then(st, xs, mid, a);
  }

  /** The worker is at rest in its loop, nothing to signal and no post to come. */
  ghost predicate Resting(st: State) {
    st.worker.Waiting? && st.signals == 0 && st.posting == 0
  }

  lemma RunsNowhere(st: State)
    ensures Runs(st, [], st)
  {
  }

  /** What the worker leaves alone while it fetches and handles an event. */
  ghost predicate Apart(st: State, after: State) {
    && after.io == st.io && after.auto == st.auto && after.lock == st.lock
    && after.signals == st.signals && after.posting == st.posting
    && after.overloaded == st.overloaded && after.lowoverloaded == st.lowoverloaded
    && after.external == st.external && after.late == st.late
  }

  /** The worker finds the queue to pop from. */
  lemma Fetch(st: State) returns (actions: seq<Action>, after: State)
    requires Inv(st) && st.worker.Waiting? && st.signals == 0 && st.event > 0
    ensures Runs(st, actions, after) && Inv(after) && Apart(st, after)
    ensures after.queues == st.queues && after.event == st.event - 1 && after.delivered == st.delivered
    ensures after.worker ==
      Popping(if st.queues.Size(High) > 0 then High else if st.queues.Size(Data) > 0 then Data else Low)
    ensures forall a <- actions :: Works(a)
  {
    hide Inv, Runs;
    RunsNowhere(st);
    InvFacts(st);
    actions, after := ThenWork(st, [], st, Wake);
    actions, after := ThenWork(st, actions, after, TestSignals);
    actions, after := ThenWork(st, actions, after, TestHigh);
    if after.worker.NoHigh? {
      actions, after := ThenWork(st, actions, after, TestData);
    }
  }

  lemma PopSizes(queues: Lanes, q: Which)
    requires queues.Of(q).content > 0 && queues.Of(q).items != []
    ensures queues.Wait(q).Of(q).items == queues.Of(q).items
    ensures queues.Wait(q).Pop(q).Total() == queues.Total() - 1
  {
  }

  lemma WaitSteps(st: State)
    requires Seen(st) && Counted(st.queues, st.worker) && st.worker.Popping?
    ensures var q := st.worker.q;
      && st.queues.Of(q).content > 0 && st.queues.Of(q).items != []
      && CanWork(st, WaitContent)
      && NextWork(st, WaitContent) == st.(queues := st.queues.Wait(q), worker := Taking(q))
  {
  }

  lemma TakeSteps(st: State, mid: State)
    requires st.worker.Popping? && st.queues.Of(st.worker.q).content > 0 && st.queues.Of(st.worker.q).items != []
    requires mid == st.(queues := st.queues.Wait(st.worker.q), worker := Taking(st.worker.q))
    ensures var q, e := st.worker.q, st.queues.Of(st.worker.q).items[0];
      && mid.queues.Of(q).items == st.queues.Of(q).items && CanWork(mid, Take)
      && var held := NextWork(mid, Take);
        && held == mid.(queues := mid.queues.Pop(q), worker := Handling(e), delivered := st.delivered + [e])
        && CanWork(held, Return)
        && NextWork(held, Return) ==
             held.(readdata := if e.read then st.readdata + 1 else st.readdata, worker := Handled)
  {
  }

  /** It pops an event and handles it. */
  lemma Handle(st: State) returns (actions: seq<Action>, after: State)
    requires Inv(st) && st.worker.Popping?
    ensures Runs(st, actions, after) && Inv(after) && Apart(st, after)
    ensures after.worker.Handled? && after.queues.Total() == st.queues.Total() - 1 && after.event == st.event
    ensures var q := st.worker.q;
      st.queues.Of(q).content > 0 && st.queues.Wait(q).Of(q).items == st.queues.Of(q).items != [] &&
      after.queues == st.queues.Wait(q).Pop(q) && after.delivered == st.delivered + [st.queues.Of(q).items[0]]
    ensures forall a <- actions :: Works(a)
  {
    hide Inv, Runs, Lanes.Wait, Lanes.Pop, Lanes.Total, CanWork, NextWork;
    RunsNowhere(st);
    InvFacts(st);
    var q := st.worker.q;
    WaitSteps(st);
    PopSizes(st.queues, q);
    actions, after := ThenWork(st, [], st, WaitContent);
    TakeSteps(st, after);
    actions, after := ThenWork(st, actions, after, Take);
    actions, after := ThenWork(st, actions, after, Return);
  }

  /** The worker handles one event while everybody else stands still. */
  lemma Serve(st: State) returns (actions: seq<Action>, after: State)
    requires Inv(st) && Resting(st) && Owed(st.io) == 0 && st.queues.Total() > 0
    ensures Runs(st, actions, after) && Inv(after) && Apart(st, after)
    ensures after.worker.Handled? && after.queues.Total() == st.queues.Total() - 1
    ensures forall a <- actions :: Works(a)
  {
    hide Inv, Runs;
    InvFacts(st);
    var xs, mid := Fetch(st);
    var ys, end := Handle(mid);
    RunsOn(st, xs, mid, ys, end);
    actions, after := xs + ys, end;
  }

  lemma {:induction false} Drain(st: State) returns (actions: seq<Action>, after: State)
    requires Inv(st) && Resting(st) && Owed(st.io) == 0 && !st.overloaded && !st.lowoverloaded
    ensures Runs(st, actions, after) && Inv(after) && Resting(after) && !after.overloaded && !after.lowoverloaded
    ensures after.queues.Total() == 0 && Apart(st, after)
    decreases st.queues.Total()
  {
    hide Inv, Runs;
    if st.queues.Total() == 0 {
      actions, after := [], st;
      RunsNowhere(st);
    } else {
      var xs, mid := Serve(st);
      xs, mid := ThenWork(st, xs, mid, TestFlags);
      var ys, end := Drain(mid);
      RunsOn(st, xs, mid, ys, end);
      actions, after := xs + ys, end;
    }
  }

  /** The I/O thread dispatches n events. */
  lemma {:induction false} Flood(st: State, sock: int, n: nat) returns (actions: seq<Action>, after: State)
    requires Inv(st) && Resting(st) && st.io.Inside? && !st.overloaded && !st.lowoverloaded && sock >= 0
    requires sock !in st.external && sock !in st.lowered
    ensures Runs(st, actions, after) && Inv(after) && Resting(after) && !after.overloaded && !after.lowoverloaded
    ensures after.queues.Size(Data) == st.queues.Size(Data) + n
    ensures after.io.Inside? && after.auto == st.auto && after.external == st.external && after.lowered == st.lowered
    decreases n
  {
    hide Inv, Runs;
    actions, after := [], st;
    RunsNowhere(st);
    if n > 0 {
      var xs, mid := ThenIo(st, [], st, Dispatch(sock, false));
      xs, mid := ThenIo(st, xs, mid, Post);
      var ys, end := Flood(mid, sock, n - 1);
      RunsOn(st, xs, mid, ys, end);
      actions, after := xs + ys, end;
    }
  }

  /** From any start, the I/O thread can count enough events to call the worker overloaded. */
  lemma Overload(st: State, sock: int) returns (actions: seq<Action>, after: State)
    requires Initial(st) && sock >= 0 && sock !in st.external
    ensures Runs(st, actions, after) && Inv(after) && Resting(after) && after.io == Raise(sock)
    ensures !after.overloaded && !after.lowoverloaded && after.auto == {}
  {
    hide Inv, Runs;
    assert Inv(st) by { InitialInv(st); }
    RunsNowhere(st);
    actions, after := ThenIo(st, [], st, TakeLock);
    var ys, end := Flood(after, sock, OVERLOAD_SIZE);
    RunsOn(st, actions, after, ys, end);
    actions, after := ThenIo(st, actions + ys, end, Dispatch(sock, true));
    actions, after := ThenIo(st, actions, after, Post);
    actions, after := ThenIo(st, actions, after, Count(High));
    actions, after := ThenIo(st, actions, after, Count(Data));
  }

  /** And then the worker can handle everything before the flag is set: the socket is paused while the worker
      sleeps, with nothing queued and nobody about to wake it. */
  lemma LateFlag(st: State, sock: int) returns (actions: seq<Action>, after: State)
    requires Initial(st) && sock >= 0 && sock !in st.external
    ensures Runs(st, actions, after) && Inv(after)
    ensures after.auto == {sock} && !Busy(after) && after.late
    ensures Resting(after) && after.event == 0 && after.io.Outside? && after.lock == Nobody
  {
    hide Inv, Runs;
    actions, after := Overload(st, sock);
    var ys, end := Drain(after);
    RunsOn(st, actions, after, ys, end);
    InvFacts(end);
    actions, after := ThenIo(st, actions + ys, end, RaiseFlag);
    actions, after := ThenIo(st, actions, after, RaiseLowFlag);
    actions, after := ThenIo(st, actions, after, ReadFlag);
    actions, after := ThenIo(st, actions, after, AutoPause);
    actions, after := ThenIo(st, actions, after, GiveLock);
  }

  /** The steps of the worker's loop. */
  predicate Works(a: Action) {
    a.Wake? || a.TestSignals? || a.ClearSignal? || a.TestHigh? || a.TestData? || a.WaitContent? || a.Take? || a.Return?
    || a.TestFlags? || a.Sum? || a.ClearFlag? || a.ClearLowFlag? || a.LockReady? || a.Ready?
  }

  /** The worker takes the signals that are set. */
  lemma {:induction false} TakeSignals(st: State) returns (work: seq<Action>, after: State)
    requires Inv(st) && st.worker.Waiting? && st.event >= st.signals
    ensures Runs(st, work, after) && Inv(after) && forall a <- work :: Works(a)
    ensures after == st.(signals := 0, event := st.event - st.signals)
    decreases st.signals
  {
    hide Inv, Runs;
    RunsNowhere(st);
    work, after := [], st;
    if st.signals > 0 {
      work, after := ThenWork(st, [], st, Wake);
      work, after := ThenWork(st, work, after, TestSignals);
      work, after := ThenWork(st, work, after, ClearSignal);
      var ys, end := TakeSignals(after);
      RunsOn(st, work, after, ys, end);
      work, after := work + ys, end;
    }
  }

  /** Whoever queued it: once an event is queued and posted, with little else queued, the worker's own steps un-pause
      everything. Signals are taken first and un-pause nothing. */
  lemma QueuedEventRecovers(st: State) returns (work: seq<Action>, after: State)
    requires Inv(st) && st.worker.Waiting? && st.lock == Nobody && st.auto != {}
    requires 0 < st.queues.Total() <= READY_SIZE + 1 && st.event > st.signals
    ensures Runs(st, work, after) && Inv(after) && forall a <- work :: Works(a)
    ensures after.auto == {} && !after.overloaded && !after.lowoverloaded && after.worker.Waiting?
    ensures after.queues.Total() == st.queues.Total() - 1
  {
    hide Inv, Runs;
    InvFacts(st);
    var xs, mid := TakeSignals(st);
    var ys, end := Fetch(mid);
    RunsOn(st, xs, mid, ys, end);
    xs, mid := xs + ys, end;
    ys, end := Handle(mid);
    RunsOn(st, xs, mid, ys, end);
    xs, mid := xs + ys, end;
    ys, end := ClearAll(mid);
    RunsOn(st, xs, mid, ys, end);
    work, after := xs + ys, end;
  }

  /** Something is paused and nobody does anything. */
  ghost predicate Stuck(st: State) {
    Inv(st) && Resting(st) && !Busy(st) && st.io.Outside? && st.lock == Nobody && st.auto != {}
  }

  /** An event from any other producer, such as the periodic tick, makes the worker un-pause everything. */
  lemma NextEventRecovers(st: State, q: Which) returns (work: seq<Action>, after: State)
    requires Stuck(st)
    ensures Runs(st, [Produce(-1, q), PostOther] + work, after) && forall a <- work :: Works(a)
    ensures after.auto == {} && !after.overloaded && !after.lowoverloaded && !Busy(after)
  {
    hide Inv, Runs;
    InvFacts(st);
    RunsNowhere(st);
    var actions, mid := Then(st, [], st, Produce(-1, q));
    actions, mid := Then(st, actions, mid, PostOther);
    assert actions == [Produce(-1, q), PostOther];
    work, after := QueuedEventRecovers(mid);
    RunsOn(st, actions, mid, work, after);
  }

  /** So does an event of a socket, even if the I/O thread pauses that socket as well because the flag is still set. */
  lemma NextDispatchRecovers(st: State, sock: int, asks: bool)
    returns (io: seq<Action>, work: seq<Action>, after: State)
    requires Stuck(st) && sock !in st.external
    ensures Runs(st, [TakeLock, Dispatch(sock, asks), Post] + io + work, after) && forall a <- work :: Works(a)
    ensures forall a <- io :: a.Count? || a == ReadFlag || a == AutoPause || a == GiveLock
    ensures after.auto == {} && !after.overloaded && !after.lowoverloaded && !Busy(after)
  {
    hide Inv, Runs;
    InvFacts(st);
    RunsNowhere(st);
    var actions, mid := ThenIo(st, [], st, TakeLock);
    actions, mid := ThenIo(st, actions, mid, Dispatch(sock, asks));
    actions, mid := ThenIo(st, actions, mid, Post);
    assert actions == [TakeLock, Dispatch(sock, asks), Post];
    var end;
    io, end := Leave(mid);
    RunsOn(st, actions, mid, io, end);
    work, after := QueuedEventRecovers(end);
    RunsOn(st, actions + io, end, work, after);
  }

  /** The I/O thread finishes a dispatch with little queued. */
  lemma Leave(st: State) returns (io: seq<Action>, after: State)
    requires Inv(st)
    requires st.io.Inside? || (st.io.Counting? && st.io.left == Unread(true, true, st.io.low) && st.io.n == 0)
    requires st.queues.Total() < OVERLOAD_SIZE
    ensures Runs(st, io, after) && Inv(after)
    ensures forall a <- io :: a.Count? || a == ReadFlag || a == AutoPause || a == GiveLock
    ensures after.io.Outside? && after.lock == Nobody && st.auto <= after.auto && after.queues == st.queues
    ensures after.worker == st.worker && after.event == st.event
    ensures after.signals == st.signals && after.posting == st.posting
  {
    hide Inv, Runs, Lanes.Of;
    RunsNowhere(st);
    io, after := [], st;
    if st.io.Counting? {
      io, after := ThenIo(st, io, after, Count(High));
      io, after := ThenIo(st, io, after, Count(Data));
      if st.io.low {
        io, after := ThenIo(st, io, after, Count(Low));
      }
      io, after := ThenIo(st, io, after, ReadFlag);
      if after.io.Pause? {
        io, after := ThenIo(st, io, after, AutoPause);
      }
    }
    io, after := ThenIo(st, io, after, GiveLock);
  }

  /** And the event of an external descriptor. */
  lemma NextReadRecovers(st: State, sock: int) returns (work: seq<Action>, after: State)
    requires Stuck(st) && sock in st.external
    ensures Runs(st, [TakeLock, GoRead(sock), PushRead, PostRead] + work, after) && forall a <- work :: Works(a)
    ensures after.auto == {} && !after.overloaded && !after.lowoverloaded && !Busy(after)
  {
    hide Inv, Runs;
    InvFacts(st);
    RunsNowhere(st);
    var actions, mid := ThenIo(st, [], st, TakeLock);
    actions, mid := ThenIo(st, actions, mid, GoRead(sock));
    actions, mid := ThenIo(st, actions, mid, PushRead);
    actions, mid := ThenIo(st, actions, mid, PostRead);
    assert actions == [TakeLock, GoRead(sock), PushRead, PostRead];
    work, after := QueuedEventRecovers(mid);
    RunsOn(st, actions, mid, work, after);
  }

  lemma SumStep(st: State, q: Which)
    requires st.worker.Summing? && st.worker.left.Has(q)
    ensures var left, n := st.worker.left.Without(q), st.worker.n + st.queues.Size(q);
      CanWork(st, Sum(q)) && NextWork(st, Sum(q)) == st.(worker :=
        if !left.Done() then Summing(left, n) else if n <= READY_SIZE then Clear else Waiting)
  {
  }

  lemma FlagsStep(st: State)
    requires st.worker.Handled? && (st.overloaded || st.lowoverloaded)
    ensures CanWork(st, TestFlags)
    ensures NextWork(st, TestFlags) == st.(worker := Summing(Unread(true, true, true), 0))
  {
  }

  /** With a flag set, the worker decides to clear the flags when little is queued. */
  lemma AddUp(st: State) returns (actions: seq<Action>, after: State)
    requires Inv(st) && st.worker.Handled? && (st.overloaded || st.lowoverloaded)
    ensures Runs(st, actions, after) && Inv(after) && forall a <- actions :: Works(a)
    ensures after == st.(worker := if st.queues.Total() <= READY_SIZE then Clear else Waiting)
  {
    hide Inv, Runs, Lanes.Of, CanWork, NextWork;
    RunsNowhere(st);
    FlagsStep(st);
    actions, after := ThenWork(st, [], st, TestFlags);
    SumStep(after, Data);
    actions, after := ThenWork(st, actions, after, Sum(Data));
    SumStep(after, High);
    actions, after := ThenWork(st, actions, after, Sum(High));
    SumStep(after, Low);
    actions, after := ThenWork(st, actions, after, Sum(Low));
  }

  /** It clears them. */
  lemma ClearBoth(st: State) returns (actions: seq<Action>, after: State)
    requires Inv(st) && st.worker.Clear?
    ensures Runs(st, actions, after) && Inv(after) && forall a <- actions :: Works(a)
    ensures after == st.(overloaded := false, lowoverloaded := false, late := false, worker := Notify)
  {
    hide Inv, Runs;
    RunsNowhere(st);
    actions, after := ThenWork(st, [], st, ClearFlag);
    actions, after := ThenWork(st, actions, after, ClearLowFlag);
  }

  /** And it un-pauses everything. */
  lemma ClearAll(st: State) returns (actions: seq<Action>, after: State)
    requires Inv(st) && st.worker.Handled? && st.queues.Total() <= READY_SIZE && st.lock == Nobody
    requires st.overloaded || st.lowoverloaded
    ensures Runs(st, actions, after) && Inv(after) && forall a <- actions :: Works(a)
    ensures after == st.(worker := Waiting, auto := {}, overloaded := false, lowoverloaded := false, late := false)
  {
    hide Inv, Runs;
    actions, after := AddUp(st);
    var ys, end := ClearBoth(after);
    RunsOn(st, actions, after, ys, end);
    actions, after := ThenWork(st, actions + ys, end, LockReady);
    actions, after := ThenWork(st, actions, after, Ready);
  }

  // ---- closing ----

  /** A socket that is closed, by whichever thread, is paused no longer, and every other one is as it was. */
  lemma ClosedIsNotPaused(st: State, a: Action, sock: int)
    requires Can(st, a) && (a == Close(sock) || a == IoClose(sock))
    ensures forall k :: k in Next(st, a).auto <==> k in st.auto && k != sock
  {
  }

  // ---- priority ----

  lemma LoweredIo(st: State, a: Action)
    requires CanIo(st, a)
    ensures st.lowered <= NextIo(st, a).lowered && NextIo(st, a).external == st.external
  {
    hide QueueOf, Lanes.Push, Lanes.Size, Busy;
  }

  lemma LoweredWork(st: State, a: Action)
    requires CanWork(st, a)
    ensures NextWork(st, a).lowered == st.lowered && NextWork(st, a).external == st.external
  {
    hide Lanes.Pop, Lanes.Wait, Lanes.Size;
  }

  lemma LoweredOther(st: State, a: Action)
    requires CanOther(st, a)
    ensures NextOther(st, a).lowered == st.lowered && NextOther(st, a).external == st.external
  {
    hide QueueOf, Lanes.Push;
  }

  lemma LoweredStep(st: State, a: Action, sock: int)
    requires Can(st, a) && sock in st.lowered
    ensures sock in Next(st, a).lowered && Next(st, a).external == st.external
  {
    hide CanIo, NextIo, CanWork, NextWork, CanOther, NextOther;
    if CanIo(st, a) {
      LoweredIo(st, a);
    } else if CanWork(st, a) {
      LoweredWork(st, a);
    } else {
      LoweredOther(st, a);
    }
  }

  lemma {:induction false} StaysLowered(st: State, actions: seq<Action>, after: State, sock: int)
    requires Runs(st, actions, after) && sock in st.lowered && sock !in st.external
    ensures sock in after.lowered && sock !in after.external
    decreases |actions|
  {
    hide Can, Next;
    if actions != [] {
      LoweredStep(st, actions[0], sock);
      StaysLowered(Next(st, actions[0]), actions[1..], after, sock);
    }
  }

  /** Once the priority of a socket has dropped, whatever is dispatched for it goes to the end of the low queue. */
  lemma LoweredForGood(st: State, sock: int, actions: seq<Action>, after: State, asks: bool)
    requires Can(st, Lower(sock)) && Runs(Next(st, Lower(sock)), actions, after) && Can(after, Dispatch(sock, asks))
    ensures var q, r := after.queues, Next(after, Dispatch(sock, asks)).queues;
      r.low.items == q.low.items + [Ev(sock, false)] && r.high == q.high && r.data == q.data
  {
    hide Runs;
    StaysLowered(Next(st, Lower(sock)), actions, after, sock);
  }
}
