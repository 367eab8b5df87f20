/** Events whose listeners may pause, delay or cancel them. */
module Events {
  import opened Options

  /** What one call of a listener comes to, once the event's interrupt handler has had its
      say. */
  datatype Outcome = Goes | Pauses | Delays | Cancels

  /** The outcome of the k-th call, over the life of the event. */
  type Script = nat -> Outcome

  /** The calls made so far, and the listener from which the event is to be resumed. */
  datatype Firing = Firing(calls: seq<nat>, pending: Option<nat>)

  /** One firing: listeners in order, from the given one, until one interrupts. */
  function Fired(n: nat, from: nat, calls: seq<nat>, script: Script): Firing
    decreases n - from
  {
    if from >= n then Firing(calls, None)
    else
      var calls' := calls + [from];
      match script(|calls|)
      case Goes => Fired(n, from + 1, calls', script)
      case Pauses => Firing(calls', Some(from + 1))
      case Delays => Firing(calls', Some(from))
      case Cancels => Firing(calls', None)
  }

  /** Which listener is next after a call. */
  function NextAfter(i: nat, o: Outcome): Option<nat> {
    match o
    case Goes => Some(i + 1)
    case Pauses => Some(i + 1)
    case Delays => Some(i)
    case Cancels => None
  }

  function NextOf(calls: seq<nat>, script: Script): Option<nat> {
    if calls == [] then Some(0) else NextAfter(calls[|calls| - 1], script(|calls| - 1))
  }

  /** In order, none skipped: every call is the one due after the calls before it. */
  predicate InOrder(n: nat, calls: seq<nat>, script: Script) {
    forall k :: 0 <= k < |calls| ==> Due(n, calls, k, script)
  }

  predicate Due(n: nat, calls: seq<nat>, k: nat, script: Script)
    requires k < |calls|
  {
    calls[k] < n && NextOf(calls[..k], script) == Some(calls[k])
  }

  /** Where the event is: to be resumed where it is due, or over. */
  predicate FiringOk(n: nat, f: Firing, script: Script) {
    && InOrder(n, f.calls, script)
    && (f.pending.Some? ==> f.pending == NextOf(f.calls, script) && f.pending.value <= n)
    && (f.pending.None? ==> var next := NextOf(f.calls, script); next == None || next == Some(n))
  }

  lemma OrderGrows(n: nat, calls: seq<nat>, i: nat, script: Script)
    requires InOrder(n, calls, script) && i < n && NextOf(calls, script) == Some(i)
    ensures InOrder(n, calls + [i], script) && NextOf(calls + [i], script) == NextAfter(i, script(|calls|))
  {
    var calls' := calls + [i];
    forall k | 0 <= k < |calls'| ensures Due(n, calls', k, script) {
      assert calls'[..k] == calls[..k];
      assert calls[..|calls|] == calls;
      assert k < |calls| ==> Due(n, calls, k, script);
    }
  }

  lemma {:induction false} FiredOk(n: nat, from: nat, calls: seq<nat>, script: Script)
    requires InOrder(n, calls, script) && from <= n && NextOf(calls, script) == Some(from)
    ensures FiringOk(n, Fired(n, from, calls, script), script)
    decreases n - from
  {
    if from < n {
      OrderGrows(n, calls, from, script);
      if script(|calls|).Goes? {
        FiredOk(n, from + 1, calls + [from], script);
      }
    }
  }

  /** None of the calls made since there were so many of them interrupted the event. */
  predicate Uninterrupted(since: nat, calls: seq<nat>, script: Script) {
    forall k :: since <= k < |calls| ==> script(k).Goes?
  }

  /** The listeners from one on, to the last. */
  function ToTheLast(n: nat, from: nat): seq<nat> {
    seq(if from < n then n - from else 0, i requires 0 <= i => from + i)
  }

  /** What one firing calls: no listener but those from the given one on, in order, all of them if
      and only if none of them interrupts; and one that does is the last called. */
  lemma {:induction false} FiredCalls(n: nat, from: nat, calls: seq<nat>, script: Script)
    requires from <= n
    ensures var f := Fired(n, from, calls, script);
            && calls <= f.calls && f.calls[|calls|..] <= ToTheLast(n, from)
            && (Uninterrupted(|calls|, f.calls, script) <==> f.calls == calls + ToTheLast(n, from) && (from < n ==> script(|f.calls| - 1).Goes?))
            && (forall k :: |calls| <= k < |f.calls| - 1 ==> script(k).Goes?)
            && (Uninterrupted(|calls|, f.calls, script) ==> f.pending.None?)
    decreases n - from
  {
    if from < n {
      var calls' := calls + [from];
      assert ToTheLast(n, from) == [from] + ToTheLast(n, from + 1);
      if script(|calls|).Goes? {
        FiredCalls(n, from + 1, calls', script);
        var f := Fired(n, from + 1, calls', script);
        assert f.calls[|calls|..] == [from] + f.calls[|calls'|..];
        assert calls + ToTheLast(n, from) == calls' + ToTheLast(n, from + 1);
      } else {
        assert calls'[|calls|..] == [from];
      }
    }
  }

  /** Published, and resumed any number of times. */
  function Resumed(n: nat, times: nat, script: Script): Firing {
    if times == 0 then Fired(n, 0, [], script)
    else
      var f := Resumed(n, times - 1, script);
      if f.pending.Some? then Fired(n, f.pending.value, f.calls, script) else f
  }

  /** Whatever the listeners do and however often the event is resumed: it is in order. */
  lemma {:induction false} ResumedOk(n: nat, times: nat, script: Script)
    ensures FiringOk(n, Resumed(n, times, script), script)
  {
    if times == 0 {
      FiredOk(n, 0, [], script);
    } else {
      ResumedOk(n, times - 1, script);
      var f := Resumed(n, times - 1, script);
      if f.pending.Some? {
        FiredOk(n, f.pending.value, f.calls, script);
      }
    }
  }

  /** A call is followed by the next listener if it went on or paused, by the same one if it
      delayed, and by none if it cancelled. */
  lemma Neighbours(n: nat, calls: seq<nat>, script: Script, k: nat)
    requires InOrder(n, calls, script) && k + 1 < |calls|
    ensures !script(k).Cancels?
    ensures calls[k + 1] == if script(k).Delays? then calls[k] else calls[k] + 1
  {
    assert Due(n, calls, k + 1, script);
    assert calls[..k + 1][k] == calls[k];
  }

  /** Every listener before the last one called has been called. */
  lemma {:induction false} NoneSkipped(n: nat, calls: seq<nat>, script: Script, i: nat)
    requires InOrder(n, calls, script) && calls != [] && i <= calls[|calls| - 1]
    ensures i in calls
    decreases |calls|
  {
    var k := |calls| - 1;
    assert Due(n, calls, k, script);
    if k > 0 && i < calls[k] {
      Neighbours(n, calls, script, k - 1);
      var init := calls[..k];
      forall j | 0 <= j < |init| ensures Due(n, init, j, script) {
        assert Due(n, calls, j, script) && init[..j] == calls[..j];
      }
      NoneSkipped(n, init, script, i);
    }
  }

  /** An event that is over and was not cancelled has called every listener. */
  lemma OverMeansAll(n: nat, f: Firing, script: Script, i: nat)
    requires FiringOk(n, f, script) && f.pending.None? && i < n
    requires f.calls != [] ==> !script(|f.calls| - 1).Cancels?
    ensures i in f.calls
  {
    NoneSkipped(n, f.calls, script, i);
  }

  /** An event with its listeners, and the resume record that pausing or delaying it makes. */
  class Event {
    const listeners: nat
    const script: Script
    var calls: seq<nat>
    var pending: Option<nat>

    constructor (listeners: nat, script: Script)
      ensures this.listeners == listeners && this.script == script && calls == [] && pending == None
    {
      this.listeners, this.script, calls, pending := listeners, script, [], None;
    }

    /** Calls listeners from one on, until there are no more or one interrupts. */
    method Fire(from: nat) returns (finished: bool)
      requires from <= listeners
      modifies this
      ensures Firing(calls, pending) == Fired(listeners, from, old(calls), script)
      ensures old(calls) <= calls && (finished <==> Uninterrupted(|old(calls)|, calls, script))
      ensures finished ==> pending.None? && calls == old(calls) + ToTheLast(listeners, from)
    {
      FiredCalls(listeners, from, calls, script);
      var cur, interrupt := from, Goes;
      pending := None;
      while interrupt.Goes? && cur < listeners
        invariant from <= cur <= listeners
        invariant interrupt.Goes? ==> pending == None && Fired(listeners, from, old(calls), script) == Fired(listeners, cur, calls, script)
        invariant !interrupt.Goes? ==> Fired(listeners, from, old(calls), script) == Firing(calls, pending)
        invariant old(calls) <= calls && (interrupt.Goes? <==> Uninterrupted(|old(calls)|, calls, script))
        decreases listeners - cur, interrupt.Goes?
      {
        interrupt := script(|calls|);
        calls := calls + [cur];
        match interrupt {
          case Goes =>
          case Pauses => pending := Some(cur + 1);
          case Delays => pending := Some(cur);
          case Cancels =>
        }
        cur := cur + 1;
      }
      finished := interrupt.Goes?;
    }

    method Publish() returns (finished: bool)
      requires calls == []
      modifies this
      ensures Firing(calls, pending) == Resumed(listeners, 0, script)
      ensures finished <==> Uninterrupted(0, calls, script)
      ensures finished ==> pending.None? && calls == ToTheLast(listeners, 0)
    {
      finished := Fire(0);
    }

    /** Resuming a paused or delayed event, once. */
    method Resume(ghost times: nat) returns (finished: bool)
      requires Firing(calls, pending) == Resumed(listeners, times, script) && pending.Some?
      modifies this
      ensures Firing(calls, pending) == Resumed(listeners, times + 1, script)
      ensures old(calls) <= calls && (finished <==> Uninterrupted(|old(calls)|, calls, script))
      ensures finished ==> pending.None? && calls == old(calls) + ToTheLast(listeners, old(pending).value)
    {
      ResumedOk(listeners, times, script);
      finished := Fire(pending.value);
    }
  }
}
