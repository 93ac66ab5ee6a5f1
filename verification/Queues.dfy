/** The building blocks of event delivery, each called under its own lock: a counting semaphore, a queue
    that counts its content with one, and the slots that pending signals wait in. */
module Queues {

  class Semaphore {
    var count: nat

    constructor ()
      ensures count == 0
    {
      count := 0;
    }

    method Post()
      modifies this
      ensures count == old(count) + 1
    {
      count := count + 1;
    }

    /** Waiting is over once the count is positive. */
    method Wait()
      requires count > 0
      modifies this
      ensures count == old(count) - 1
    {
      count := count - 1;
    }
  }

  class BlockingQueue<T> {
    var queue: seq<T>
    var queuesize: nat
    const content: Semaphore

    ghost function Repr(): set<object> { {this, content} }

    /** Between calls, the size and the semaphore both say how much is queued. */
    ghost predicate Valid()
      reads Repr()
    {
      queuesize == |queue| == content.count
    }

    constructor ()
      ensures Valid() && queue == [] && fresh(Repr())
    {
      queue := [];
      queuesize := 0;
      content := new Semaphore();
    }

    method Push(t: T)
      requires Valid()
      modifies Repr()
      ensures Valid() && queue == old(queue) + [t]
    {
      queue := queue + [t];
      queuesize := queuesize + 1;
      content.Post();
    }

    method Pop() returns (t: T)
      requires Valid() && queue != []
      modifies Repr()
      ensures Valid() && old(queue) == [t] + queue
    {
      content.Wait();
      t := queue[0];
      queue := queue[1..];
      queuesize := queuesize - 1;
    }

    function Size(): (n: nat)
      requires Valid()
      reads Repr()
      ensures n == |queue|
    {
      queuesize
    }
  }

  // ---- signals ----

  const SLOTS := 10

  datatype Signal = Signal(er: int, signal: int, value: int)

  datatype SignalData = Free | Set(signal: Signal)

  function SetCount(slots: seq<SignalData>): nat {
    if slots == [] then 0 else (if slots[0].Set? then 1 else 0) + SetCount(slots[1..])
  }

  lemma {:induction false} SetCountUpdate(slots: seq<SignalData>, i: nat, d: SignalData)
    requires i < |slots|
    ensures SetCount(slots[i := d]) == SetCount(slots) + (if d.Set? then 1 else 0) - (if slots[i].Set? then 1 else 0)
  {
    if i == 0 {
      assert slots[i := d][1..] == slots[1..];
    } else {
      assert slots[i := d][1..] == slots[1..][i - 1 := d];
      SetCountUpdate(slots[1..], i - 1, d);
    }
  }

  lemma {:induction false} SetCountPositive(slots: seq<SignalData>)
    ensures SetCount(slots) > 0 <==> exists i :: 0 <= i < |slots| && slots[i].Set?
  {
    if slots != [] {
      SetCountPositive(slots[1..]);
      if slots[0].Set? {
      } else if SetCount(slots[1..]) > 0 {
        var i :| 0 <= i < |slots[1..]| && slots[1..][i].Set?;
        assert slots[i + 1].Set?;
      } else {
        assert forall i :: 1 <= i < |slots| ==> slots[i] == slots[1..][i - 1];
      }
    }
  }

  /** Where a signal goes: the first slot that is free or already holds it. */
  predicate Takes(d: SignalData, s: Signal) { d.Free? || d.signal == s }

  /** The signal went where it goes; `added` when a free slot was taken for it. */
  ghost predicate Put(before: seq<SignalData>, after: seq<SignalData>, s: Signal, added: bool) {
    exists i :: 0 <= i < |before| && Takes(before[i], s) && (forall k :: 0 <= k < i ==> !Takes(before[k], s)) &&
      added == before[i].Free? && after == before[i := SignalData.Set(s)]
  }

  /** The first pending signal was taken out. */
  ghost predicate Taken(before: seq<SignalData>, after: seq<SignalData>, s: Signal) {
    exists i :: 0 <= i < |before| && before[i] == SignalData.Set(s) && (forall k :: 0 <= k < i ==> before[k].Free?) &&
      after == before[i := Free]
  }

  class SignalEvents {
    var hasevent: nat
    const slots: array<SignalData>

    ghost function Repr(): set<object> { {this, slots} }

    ghost predicate Valid()
      reads Repr()
    {
      slots.Length == SLOTS && hasevent == SetCount(slots[..])
    }

    constructor ()
      ensures Valid() && hasevent == 0 && fresh(Repr()) && forall i :: 0 <= i < SLOTS ==> slots[i].Free?
    {
      slots := new SignalData[SLOTS](i => Free);
      hasevent := 0;
      new;
      SetCountPositive(slots[..]);
    }

    /** Returns whether another post is due. The source asserts that there is room. */
    method Set(s: Signal) returns (added: bool)
      requires Valid() && exists i :: 0 <= i < slots.Length && Takes(slots[i], s)
      modifies Repr()
      ensures Valid() && hasevent == old(hasevent) + (if added then 1 else 0)
      ensures Put(old(slots[..]), slots[..], s, added)
    {
      var i := 0;
      while i < slots.Length
        invariant 0 <= i <= slots.Length && Valid() && slots[..] == old(slots[..]) && hasevent == old(hasevent)
        invariant forall k :: 0 <= k < i ==> !Takes(old(slots[k]), s)
      {
        if slots[i].Free? {
          SetCountUpdate(slots[..], i, SignalData.Set(s));
          slots[i] := SignalData.Set(s);
          hasevent := hasevent + 1;
          assert slots[..] == old(slots[..])[i := SignalData.Set(s)];
          return true;
        } else if slots[i].signal == s {
          assert slots[..] == old(slots[..])[i := SignalData.Set(s)];
          return false;
        }
        i := i + 1;
      }
      added := false;
    }

    function HasEvent(): (r: bool)
      requires Valid()
      reads Repr()
      ensures r <==> exists i :: 0 <= i < slots.Length && slots[i].Set?
    {
      SetCountPositive(slots[..]);
      assert forall i :: 0 <= i < slots.Length ==> slots[i] == slots[..][i];
      hasevent > 0
    }

    method GetClearFirst() returns (s: Signal)
      requires Valid() && HasEvent()
      modifies Repr()
      ensures Valid() && hasevent == old(hasevent) - 1
      ensures Taken(old(slots[..]), slots[..], s)
    {
      var i := 0;
      while slots[i].Free?
        invariant 0 <= i < slots.Length && Valid() && slots[..] == old(slots[..]) && hasevent == old(hasevent)
        invariant forall k :: 0 <= k < i ==> slots[k].Free?
        invariant exists k :: i <= k < slots.Length && slots[k].Set?
        decreases slots.Length - i
      {
        i := i + 1;
      }
      s := slots[i].signal;
      SetCountUpdate(slots[..], i, Free);
      SetCountPositive(slots[..]);
      slots[i] := Free;
      hasevent := hasevent - 1;
      assert slots[..] == old(slots[..])[i := Free];
    }
  }

  /** With nothing set, a signal that is set is the one that comes out, and then nothing is set again. */
  lemma SetAndTaken(before: seq<SignalData>, mid: seq<SignalData>, after: seq<SignalData>,
                    s: Signal, t: Signal, added: bool)
    requires (forall i :: 0 <= i < |before| ==> before[i].Free?) && Put(before, mid, s, added) && Taken(mid, after, t)
    ensures added && t == s && after == before
  {
    var i :| 0 <= i < |before| && Takes(before[i], s) && (forall k :: 0 <= k < i ==> !Takes(before[k], s)) &&
      added == before[i].Free? && mid == before[i := SignalData.Set(s)];
    assert mid[i].Set? && forall k :: 0 <= k < |mid| && k != i ==> mid[k].Free?;
  }

  /** A signal is lost sight of by no other: setting and taking one leaves the others in their slots. */
  lemma OthersStay(before: seq<SignalData>, after: seq<SignalData>, s: Signal, added: bool, k: nat)
    requires k < |before| && before[k].Set? && before[k] != SignalData.Set(s)
    requires Put(before, after, s, added) || Taken(before, after, s)
    ensures |after| == |before| && after[k] == before[k]
  {
  }

  /** A signal that is set already, with no free slot before it, is not set twice. */
  lemma SetOnce(before: seq<SignalData>, after: seq<SignalData>, s: Signal, added: bool, k: nat)
    requires k < |before| && before[k] == SignalData.Set(s) && (forall i :: 0 <= i < k ==> before[i].Set?)
    requires Put(before, after, s, added)
    ensures !added && after == before
  {
  }
}
