/** The work manager: dispatching an event, the overload tests, and one turn of the worker's loop. Each method
    does in one go what Delivery takes apart into the steps other threads can come between. */
module WorkManager {
  import opened Queues
  import D = Delivery
  import G = DeliveryGuarantees

  datatype Flags = Flags(overloaded: bool, low: bool)

  /** What the overload tests make of the flags. */
  function AfterCheck(queues: D.Lanes, low: bool, f: Flags): Flags {
    if low then f.(low := f.low || queues.Total() >= D.OVERLOAD_SIZE)
    else if queues.Size(D.High) + queues.Size(D.Data) >= D.OVERLOAD_SIZE then Flags(true, true)
    else f
  }

  function NextQueue(queues: D.Lanes): D.Which {
    if queues.Size(D.High) > 0 then D.High else if queues.Size(D.Data) > 0 then D.Data else D.Low
  }

  /** Whether the worker clears the flags after an event. */
  predicate Clears(queues: D.Lanes, f: Flags) {
    (f.overloaded || f.low) && queues.Total() <= D.READY_SIZE
  }

  datatype Turn = Signalled(s: Signal) | Served(e: D.Ev)

  class WorkManager {
    const highprioqueue: BlockingQueue<D.Ev>
    const dataqueue: BlockingQueue<D.Ev>
    const lowprioqueue: BlockingQueue<D.Ev>
    const event: Semaphore
    const signalevents: SignalEvents
    var overloaded: bool
    var lowpriooverloaded: bool

    ghost function Repr(): set<object> {
      {this, event} + highprioqueue.Repr() + dataqueue.Repr() + lowprioqueue.Repr() + signalevents.Repr()
    }

    ghost predicate Apart() {
      && highprioqueue.Repr() !! dataqueue.Repr() && highprioqueue.Repr() !! lowprioqueue.Repr()
      && dataqueue.Repr() !! lowprioqueue.Repr()
      && event !in highprioqueue.Repr() + dataqueue.Repr() + lowprioqueue.Repr()
    }

    ghost predicate Valid()
      reads Repr()
    {
      Apart() && highprioqueue.Valid() && dataqueue.Valid() && lowprioqueue.Valid() && signalevents.Valid()
    }

    /** The queues as Delivery has them. */
    ghost function Value(): D.Lanes
      reads Repr()
    {
      D.Lanes(D.Lane(highprioqueue.queue, highprioqueue.content.count),
              D.Lane(dataqueue.queue, dataqueue.content.count),
              D.Lane(lowprioqueue.queue, lowprioqueue.content.count))
    }

    ghost function Raised(): Flags
      reads this
    {
      Flags(overloaded, lowpriooverloaded)
    }

    constructor ()
      ensures Valid() && fresh(event) && fresh(signalevents.Repr())
      ensures fresh(highprioqueue.Repr()) && fresh(dataqueue.Repr()) && fresh(lowprioqueue.Repr())
      ensures Value() == D.Lanes(D.Lane([], 0), D.Lane([], 0), D.Lane([], 0)) && event.count == 0
      ensures Raised() == Flags(false, false) && signalevents.hasevent == 0
    {
      var h := new BlockingQueue<D.Ev>();
      var d := new BlockingQueue<D.Ev>();
      assert h.Repr() !! d.Repr() && h.Valid();
      var l := new BlockingQueue<D.Ev>();
      assert l.Repr() !! h.Repr() + d.Repr() && h.Valid() && d.Valid();
      var e := new Semaphore();
      var s := new SignalEvents();
      highprioqueue, dataqueue, lowprioqueue, event, signalevents := h, d, l, e, s;
      overloaded, lowpriooverloaded := false, false;
    }

    method Overload() returns (r: bool)
      requires Valid()
      modifies `overloaded, `lowpriooverloaded
      ensures Valid() && Value() == old(Value())
      ensures Raised() == AfterCheck(Value(), false, old(Raised())) && r == overloaded
      ensures var n := |Value().high.items| + |Value().data.items|;
        overloaded == (old(overloaded) || n >= 32) && lowpriooverloaded == (old(lowpriooverloaded) || n >= 32)
    {
      var currentlyoverloaded := highprioqueue.Size() + dataqueue.Size() >= D.OVERLOAD_SIZE;
      if currentlyoverloaded {
        overloaded := true;
        lowpriooverloaded := true;
      }
      r := overloaded;
    }

    method LowPrioOverload() returns (r: bool)
      requires Valid()
      modifies `lowpriooverloaded
      ensures Valid() && Value() == old(Value())
      ensures Raised() == AfterCheck(Value(), true, old(Raised())) && r == lowpriooverloaded
      ensures overloaded == old(overloaded) && lowpriooverloaded == (old(lowpriooverloaded) || Value().Total() >= 32)
    {
      var currentlyoverloaded :=
        highprioqueue.Size() + dataqueue.Size() + lowprioqueue.Size() >= D.OVERLOAD_SIZE;
      if currentlyoverloaded {
        lowpriooverloaded := true;
      }
      r := lowpriooverloaded;
    }

    method PushTo(q: D.Which, e: D.Ev)
      requires Valid()
      modifies Repr() - {this, event} - signalevents.Repr()
      ensures Valid() && Value() == old(Value()).Push(q, e)
    {
      match q {
        case High => highprioqueue.Push(e);
        case Data => dataqueue.Push(e);
        case Low => lowprioqueue.Push(e);
      }
    }

    method PopFrom(q: D.Which) returns (e: D.Ev)
      requires Valid() && Value().Of(q).items != []
      modifies Repr() - {this, event} - signalevents.Repr()
      ensures Valid() && e == old(Value()).Of(q).items[0] && Value() == old(Value()).Wait(q).Pop(q)
    {
      match q {
        case High => e := highprioqueue.Pop();
        case Data => e := dataqueue.Pop();
        case Low => e := lowprioqueue.Pop();
      }
    }

    /** The most urgent event. */
    method PopNext() returns (e: D.Ev)
      requires Valid() && Value().Total() > 0
      modifies Repr() - {this, event} - signalevents.Repr()
      ensures Valid() && var q := NextQueue(old(Value()));
        e == old(Value()).Of(q).items[0] && Value() == old(Value()).Wait(q).Pop(q)
    {
      if highprioqueue.Size() > 0 {
        e := PopFrom(D.High);
      } else if dataqueue.Size() > 0 {
        e := PopFrom(D.Data);
      } else {
        e := PopFrom(D.Low);
      }
    }

    /** Data for a socket, with its priority; the answer says whether the socket may go on. */
    method DispatchFDData(sock: int, prio: D.Which) returns (ok: bool)
      requires Valid()
      modifies Repr()
      ensures Valid() && Value() == old(Value()).Push(prio, D.Ev(sock, false))
      ensures event.count == old(event.count) + 1 && signalevents.hasevent == old(signalevents.hasevent)
      ensures Raised() == AfterCheck(Value(), prio == D.Low, old(Raised()))
      ensures ok == !(if prio == D.Low then lowpriooverloaded else overloaded)
    {
      PushTo(prio, D.Ev(sock, false));
      event.Post();
      if prio == D.Low {
        var r := LowPrioOverload();
        return !r;
      }
      var r := Overload();
      ok := !r;
    }

    /** One turn of the worker: a pending signal first, then the most urgent event. `ready` tells that the flags
        were cleared and everyone waiting for the worker is to be told. */
    method RunOnce() returns (turn: Turn, ready: bool)
      requires Valid() && 0 < event.count <= Value().Total() + signalevents.hasevent
      modifies Repr()
      ensures Valid() && event.count == old(event.count) - 1
      ensures old(signalevents.hasevent) > 0 ==>
        turn.Signalled? && !ready && Value() == old(Value()) && Raised() == old(Raised()) &&
        signalevents.hasevent == old(signalevents.hasevent) - 1
      ensures old(signalevents.hasevent) == 0 ==>
        var q := NextQueue(old(Value()));
        turn == Served(old(Value()).Of(q).items[0]) && Value() == old(Value()).Wait(q).Pop(q) &&
        signalevents.hasevent == 0 && ready == Clears(Value(), old(Raised())) &&
        Raised() == if ready then Flags(false, false) else old(Raised())
      ensures old(signalevents.hasevent) == 0 ==>
        var was := old(Value());
        && (was.high.items != [] ==> turn == Served(was.high.items[0]))
        && (was.high.items == [] && was.data.items != [] ==> turn == Served(was.data.items[0]))
        && (was.high.items == was.data.items == [] ==> was.low.items != [] && turn == Served(was.low.items[0]))
        && (ready <==> (old(overloaded) || old(lowpriooverloaded)) && Value().Total() <= 8)
    {
      event.Wait();
      ready := false;
      if signalevents.HasEvent() {
        var s := signalevents.GetClearFirst();
        turn := Signalled(s);
      } else {
        var e := PopNext();
        turn := Served(e);
        ready := TestReady();
      }
    }

    /** With a flag set and little left, the flags are cleared. */
    method TestReady() returns (ready: bool)
      requires Valid()
      modifies `overloaded, `lowpriooverloaded
      ensures Valid() && Value() == old(Value()) && ready == Clears(Value(), old(Raised()))
      ensures Raised() == if ready then Flags(false, false) else old(Raised())
    {
      ready := false;
      if (overloaded || lowpriooverloaded)
         && dataqueue.Size() + highprioqueue.Size() + lowprioqueue.Size() <= D.READY_SIZE
      {
        overloaded := false;
        lowpriooverloaded := false;
        ready := true;
      }
    }
  }

  // ---- the same steps with nobody in between ----

  /** In Delivery, an uninterrupted dispatch ends as DispatchFDData does: the event queued and posted, the flags
      as asks, and the socket about to be paused exactly when the answer is no. */
  lemma DispatchRuns(st: D.State, sock: int) returns (actions: seq<D.Action>, after: D.State)
    requires D.Inv(st) && st.io.Inside? && sock !in st.external
    ensures D.Runs(st, actions, after) && D.Inv(after)
    ensures var low := sock in st.lowered;
      var q := st.queues.Push(if low then D.Low else D.Data, D.Ev(sock, false));
      var f := AfterCheck(q, low, Flags(st.overloaded, st.lowoverloaded));
      after.queues == q && after.event == st.event + 1 && Flags(after.overloaded, after.lowoverloaded) == f &&
      after.io == if (if low then f.low else f.overloaded) then D.Pause(sock) else D.Inside
  {
    hide D.Inv, D.Runs, D.Lanes.Push;
    G.RunsNowhere(st);
    actions, after := G.ThenIo(st, [], st, D.Dispatch(sock, true));
    actions, after := G.ThenIo(st, actions, after, D.Post);
    actions, after := CheckOverload(st, actions, after);
  }

  /** The overload test, step by step. */
  lemma CheckOverload(st: D.State, xs: seq<D.Action>, mid: D.State) returns (actions: seq<D.Action>, after: D.State)
    requires D.Runs(st, xs, mid) && D.Inv(mid) && mid.io.Counting?
    requires mid.io.left == D.Unread(true, true, mid.io.low) && mid.io.n == 0
    ensures D.Runs(st, actions, after) && D.Inv(after)
    ensures var f := AfterCheck(mid.queues, mid.io.low, Flags(mid.overloaded, mid.lowoverloaded));
      after.queues == mid.queues && after.event == mid.event && Flags(after.overloaded, after.lowoverloaded) == f &&
      after.io == if (if mid.io.low then f.low else f.overloaded) then D.Pause(mid.io.sock) else D.Inside
  {
    hide D.Inv, D.Runs, D.Lanes.Of;
    actions, after := G.ThenIo(st, xs, mid, D.Count(D.High));
    actions, after := G.ThenIo(st, actions, after, D.Count(D.Data));
    if mid.io.low {
      actions, after := G.ThenIo(st, actions, after, D.Count(D.Low));
    }
    actions, after := Decide(st, actions, after);
  }

  /** Its end: the flags are raised if need be, and read. */
  lemma Decide(st: D.State, xs: seq<D.Action>, mid: D.State) returns (actions: seq<D.Action>, after: D.State)
    requires D.Runs(st, xs, mid) && D.Inv(mid) && (mid.io.Read? || (mid.io.RaiseLow? && mid.io.low) || mid.io.Raise?)
    ensures D.Runs(st, actions, after) && D.Inv(after) && after.queues == mid.queues && after.event == mid.event
    ensures var low := !mid.io.Raise? && mid.io.low;
      after.overloaded == (mid.overloaded || mid.io.Raise?) &&
      after.lowoverloaded == (mid.lowoverloaded || mid.io.Raise? || mid.io.RaiseLow?) &&
      after.io == if (if low then after.lowoverloaded else after.overloaded) then D.Pause(mid.io.sock) else D.Inside
  {
    hide D.Inv, D.Runs;
    actions, after := xs, mid;
    if after.io.Raise? {
      actions, after := G.ThenIo(st, actions, after, D.RaiseFlag);
    }
    if after.io.RaiseLow? {
      actions, after := G.ThenIo(st, actions, after, D.RaiseLowFlag);
    }
    actions, after := G.ThenIo(st, actions, after, D.ReadFlag);
  }

  /** An uninterrupted turn of the worker that finds no signal ends as RunOnce does: the most urgent event is
      delivered, and the flags are cleared and everything un-paused exactly when little is left. */
  lemma TurnRuns(st: D.State) returns (actions: seq<D.Action>, after: D.State)
    requires D.Inv(st) && st.worker.Waiting? && st.signals == 0 && st.event > 0 && st.lock == D.Nobody
    ensures D.Runs(st, actions, after) && D.Inv(after) && after.worker.Waiting? && after.event == st.event - 1
    ensures var q := NextQueue(st.queues);
      var clears := Clears(after.queues, Flags(st.overloaded, st.lowoverloaded));
      st.queues.Of(q).content > 0 && st.queues.Wait(q).Of(q).items == st.queues.Of(q).items != [] &&
      after.queues == st.queues.Wait(q).Pop(q) && after.delivered == st.delivered + [st.queues.Of(q).items[0]] &&
      Flags(after.overloaded, after.lowoverloaded)
        == (if clears then Flags(false, false) else Flags(st.overloaded, st.lowoverloaded)) &&
      after.auto == if clears then {} else st.auto
  {
    hide D.Inv, D.Runs, D.Lanes.Wait, D.Lanes.Pop;
    var mid, end, ys;
    actions, mid := G.Fetch(st);
    ys, end := G.Handle(mid);
    G.RunsOn(st, actions, mid, ys, end);
    actions, mid := actions + ys, end;
    if Clears(mid.queues, Flags(mid.overloaded, mid.lowoverloaded)) {
      ys, after := G.ClearAll(mid);
      G.RunsOn(st, actions, mid, ys, after);
      actions := actions + ys;
    } else if mid.overloaded || mid.lowoverloaded {
      ys, after := G.AddUp(mid);
      G.RunsOn(st, actions, mid, ys, after);
      actions := actions + ys;
    } else {
      actions, after := G.ThenWork(st, actions, mid, D.TestFlags);
    }
  }
}
