/** The ring buffer and the sending side of a process, when operations do not interleave. */
module IpcChannel {
  import opened IpcQueue
  import IpcOrder
  import opened IpcSlots

  function SlotOf(index: nat): nat { index % SLOTS }

  /** Who put the message into the ring of a process. */
  function PutBy(at: int, x: Item): int {
    if !Proxied(x.src, x.dst) || at == MANAGER then x.src else MANAGER
  }

  /** 256 slots; the counters only grow, and a slot is its index modulo 256. */
  class Ring {
    const code: array<nat>
    const ptr: array<nat>
    var read: nat
    var reserve: nat
    var release: nat
    var full: bool
    ghost const at: int
    ghost var items: seq<Item>

    ghost predicate Valid()
      reads this, code, ptr
    {
      && code.Length == SLOTS && ptr.Length == SLOTS && code != ptr
      && release == read + |items| && |items| <= SLOTS
      && reserve == release + (if full then 1 else 0)
      && forall k :: 0 <= k < |items| ==> SlotHolds(items[k], SlotOf(read + k))
    }

    ghost predicate SlotHolds(x: Item, i: nat)
      requires i < code.Length && i < ptr.Length
      reads this, code, ptr
    {
      code[i] == WireCode(PutBy(at, x), x) && code[i] != NIL && ptr[i] == x.ptr
    }

    ghost function View(): Queue
      reads this
    {
      Queue(items, full)
    }

    constructor (ghost at: int)
      ensures Valid() && View() == Queue([], false) && this.at == at && fresh(code) && fresh(ptr)
    {
      code := new nat[SLOTS](_ => NIL);
      ptr := new nat[SLOTS](_ => 0);
      read, reserve, release, full := 0, 0, 0, false;
      this.at := at;
      items := [];
    }

    /** Takes an index, unless the ring is marked full; finding more than 255 unread, marks it. */
    method ReserveWriteIndex() returns (ok: bool, index: nat)
      requires Valid()
      modifies this
      ensures ok == Accepts(old(View()))
      ensures ok ==> index == release && reserve == release + 1 && !full && read == old(read) && release == old(release) && items == old(items)
      ensures !ok ==> Valid() && items == old(items) && full && read == old(read)
    {
      if full {
        return false, 0;
      }
      var next := reserve;
      reserve := reserve + 1;
      if next - read > SLOTS - 1 {
        full := true;
        return false, 0;
      }
      return true, next;
    }

    method SendDirect(c: nat, p: nat, ghost x: Item, ghost from: int) returns (ok: bool)
      requires Valid() && c != NIL && c == WireCode(from, x) && p == x.ptr && at == NextHop(from, x)
      requires from == x.src || (from == MANAGER && Proxied(x.src, x.dst))
      modifies this, code, ptr
      ensures Valid() && ok == Accepts(old(View())) && View() == Put(old(View()), x)
      ensures ok == (!old(full) && |old(items)| < 256)
      ensures items == (if ok then old(items) + [x] else old(items)) && full == !ok && read == old(read)
    {
      var index;
      ok, index := ReserveWriteIndex();
      if !ok {
        return;
      }
      ghost var was := items;
      var i := SlotOf(index);
      forall k {:trigger was[k]} | 0 <= k < |was| ensures SlotOf(read + k) != i {
        DifferentSlot(read, k, |was|);
      }
      ptr[i] := p;
      code[i] := c;
      release := release + 1;
      items := items + [x];
      forall k | 0 <= k < |items| ensures SlotHolds(items[k], SlotOf(read + k)) {
        assert k < |was| ==> old(SlotHolds(items[k], SlotOf(read + k)));
      }
    }

    /** Takes the next message.  Its code is there: the reader never has to try again. */
    method Take() returns (c: nat, p: nat, ghost x: Item)
      requires Valid() && read < release
      modifies this, code
      ensures Valid() && old(items) == [x] + items && full == old(full)
      ensures c == WireCode(PutBy(at, x), x) != NIL && p == x.ptr
      // a message through the manager comes to it under one code and to the receiver under another
      ensures c == if !Proxied(x.src, x.dst) then x.code else if at == -1 then 11 else 12
    {
      var i := SlotOf(read);
      c, p := code[i], ptr[i];
      x := items[0];
      assert SlotHolds(items[0], SlotOf(read + 0));
      forall k {:trigger items[k]} | 1 <= k < |items| ensures SlotOf(read + k) != i {
        DifferentSlot(read, 0, k);
      }
      code[i] := NIL;
      ghost var was := items;
      items := items[1..];
      read := read + 1;
      forall k | 0 <= k < |items| ensures SlotHolds(items[k], SlotOf(read + k)) {
        assert old(SlotHolds(items[k + 1], SlotOf(read + (k + 1))));
        assert items[k] == was[k + 1];
      }
    }

    /** After the last message: a full ring is opened again. */
    method Drained()
      requires Valid() && read == release
      modifies this
      ensures Valid() && View() == Queue([], false) && reserve == release
    {
      if full {
        reserve := read;
        full := false;
      }
    }
  }

  /** The processes' sending and receiving, over rings that work as queues. */
  class Network {
    var ring: map<int, Queue>
    var out: map<int, seq<Item>>
    var armed: map<int, bool>
    var accepted: seq<Item>
    ghost var delivered: seq<Item>
    ghost var dropped: set<nat>

    ghost function Now(): Net
      reads this
    {
      Net(ring, out, armed, accepted, delivered, dropped)
    }

    constructor (procs: set<int>)
      requires MANAGER in procs
      ensures Now() == Initial(procs)
    {
      ring := map p | p in procs :: Queue([], false);
      out := map p | p in procs :: [];
      armed := map p | p in procs :: false;
      accepted, delivered, dropped := [], [], {};
    }

    method SendDirect(to: int, x: Item) returns (ok: bool)
      requires to in ring
      modifies this`ring
      ensures ok == Accepts(old(ring[to])) && ring == old(ring)[to := Put(old(ring[to]), x)]
    {
      ok := Accepts(ring[to]);
      ring := ring[to := Put(ring[to], x)];
    }

    method Append(at: int, x: Item)
      requires at in out && at in armed
      modifies this`out, this`armed
      ensures Now() == Appended(old(Now()), at, x)
    {
      out := out[at := out[at] + [x]];
      if !armed[at] {
        armed := armed[at := true];
      }
      assert armed == old(armed)[at := true];
    }

    /** On from one process: false only when the overflow queue is needed and has no memory. */
    method Forward(at: int, x: Item, starting: bool, memory: bool) returns (ok: bool)
      requires at in out && at in armed && NextHop(at, x) in ring
      modifies this`ring, this`out, this`armed
      ensures ok == (memory || !Overflows(old(Now()), at, x, starting))
      ensures Now() == if ok then IpcQueue.Forward(old(Now()), at, x, starting) else Marked(old(Now()), at, x, starting)
      // straight into the ring only if nothing waits before it, and else behind all that waits
      ensures var to := NextHop(at, x);
              var tried, took := old(out[at]) == [] && !starting, Accepts(old(ring[to]));
              && ok == (memory || (tried && took))
              && ring == (if !tried then old(ring)
                          else if took then old(ring)[to := Queue(old(ring[to]).items + [x], false)]
                          else old(ring)[to := Queue(old(ring[to]).items, true)])
              && out == (if ok && !(tried && took) then old(out)[at := old(out[at]) + [x]] else old(out))
              && armed == (if ok && !(tried && took) then old(armed)[at := true] else old(armed))
    {
      if out[at] == [] && !starting {
        ok := SendDirect(NextHop(at, x), x);
        if ok {
          return;
        }
      }
      if !memory {
        return false;
      }
      Append(at, x);
      ok := true;
    }

    method Send(src: int, dst: int, code: nat, ptr: nat, admitted: bool, starting: bool, memory: bool) returns (ok: bool)
      requires Enabled(Now(), Event.Send(src, dst, code, ptr, admitted, starting, memory))
      modifies this
      ensures Now() == Apply(old(Now()), Event.Send(src, dst, code, ptr, admitted, starting, memory))
      ensures accepted == if ok then old(accepted) + [Item(src, dst, code, ptr, |old(accepted)|)] else old(accepted)
      ensures ok ==> admitted
    {
      if !admitted {
        return false;
      }
      var x := Item(src, dst, code, ptr, |accepted|);
      ok := Forward(src, x, starting, memory);
      if ok {
        accepted := accepted + [x];
      }
    }

    /** One turn of the reader's loop, with what the manager's handler for proxied messages does. */
    method Receive(at: int, admitted: bool, starting: bool, memory: bool) returns (x: Item)
      requires Enabled(Now(), Event.Receive(at, admitted, starting, memory))
      modifies this
      ensures Now() == Apply(old(Now()), Event.Receive(at, admitted, starting, memory))
      ensures old(ring[at].items) == [x] + old(ring[at].items[1..])
      ensures x.dst == at ==> delivered == old(delivered) + [x] && dropped == old(dropped) && out == old(out) && armed == old(armed)
      ensures x.dst == at ==> ring == old(ring)[at := Queue(old(ring[at]).items[1..], old(ring[at]).full)]
      ensures x.dst != at ==> delivered == old(delivered) && dropped >= old(dropped) && (admitted && memory ==> dropped == old(dropped))
      ensures x.dst != at && !admitted ==> dropped == old(dropped) + {x.id} && out == old(out)
    {
      x := ring[at].items[0];
      ring := ring[at := ring[at].(items := ring[at].items[1..])];
      if x.dst == at {
        delivered := delivered + [x];
      } else {
        var ok := false;
        if admitted {
          ok := Forward(at, x, starting, memory);
        }
        if !ok {
          dropped := dropped + {x.id};
        }
      }
    }

    /** The waiting messages, in order, until one fails, which arms the timer again. */
    method SendWaiting(at: int)
      requires NetShape(Now()) && at in out && forall x :: x in out[at] ==> NextHop(at, x) in ring
      modifies this`ring, this`out, this`armed
      ensures Now() == Flush(old(Now()), at)
    {
      hide NextHop;
      ghost var n0 := Now();
      while out[at] != []
        invariant NetShape(Now()) && at in out && forall x :: x in out[at] ==> NextHop(at, x) in ring
        invariant Flush(n0, at) == Flush(Now(), at)
        decreases if at in out then |out[at]| else 0
      {
        var x := out[at][0];
        var ok := SendDirect(NextHop(at, x), x);
        if !ok {
          armed := armed[at := true];
          return;
        }
        out := out[at := out[at][1..]];
      }
    }

    /** The retry timer. */
    method Retry(at: int)
      requires Enabled(Now(), Event.Retry(at))
      modifies this`ring, this`out, this`armed
      ensures Now() == Apply(old(Now()), Event.Retry(at))
      ensures SentAll(old(Now()), Now(), at)
    {
      hide SentAll, NextHop, Flush;
      IpcOrder.FlushSendsAll(Now(), at);
      SendWaiting(at);
    }

    /** Stopping cancels what waits, first to last, and disarms the timer. */
    method Stop(at: int) returns (cancelled: seq<Item>)
      requires Enabled(Now(), Event.Stop(at))
      modifies this`out, this`armed, this`dropped
      ensures Now() == Apply(old(Now()), Event.Stop(at)) && cancelled == old(out[at])
      ensures out == old(out)[at := []] && armed == old(armed)[at := false]
      ensures forall id :: id in dropped <==> id in old(dropped) || exists x :: x in cancelled && x.id == id
    {
      cancelled := [];
      var cur := out[at];
      while cur != []
        invariant cancelled + cur == out[at]
        decreases |cur|
      {
        cancelled := cancelled + [cur[0]];
        cur := cur[1..];
      }
      dropped := dropped + Ids(out[at]);
      out := out[at := []];
      armed := armed[at := false];
    }
  }

  lemma DifferentSlot(read: nat, j: nat, k: nat)
    requires j < k && k - j < SLOTS
    ensures SlotOf(read + j) != SlotOf(read + k)
  {
  }
}
