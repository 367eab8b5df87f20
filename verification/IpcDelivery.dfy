/** Every accepted message can still arrive: with receivers and retry timers at work, it does. */
module IpcDelivery {
  import opened IpcQueue
  import opened IpcOrder

  /** Receivers read what is there, the manager sends on what comes through it, and timers fire; nobody
      sends anything new or stops. */
  predicate Works(e: Event) {
    e.Drained? || e.Retry? || (e.Receive? && e.admitted && !e.starting && e.memory)
  }

  /** The rings a message in a ring, or waiting at a process, has yet to leave or enter. */
  function RingHops(p: int, x: Item): nat { if x.dst == p then 1 else 3 }

  function OutHops(p: int, x: Item): nat { if p == x.src && Proxied(x.src, x.dst) then 4 else 2 }

  function RingLoad(p: int, xs: seq<Item>): nat {
    if xs == [] then 0 else RingHops(p, xs[0]) + RingLoad(p, xs[1..])
  }

  function OutLoad(p: int, xs: seq<Item>): nat {
    if xs == [] then 0 else OutHops(p, xs[0]) + OutLoad(p, xs[1..])
  }

  /** What is left to do for some processes. */
  function Load(ring: map<int, Queue>, out: map<int, seq<Item>>, procs: seq<int>): nat
    requires forall i :: 0 <= i < |procs| ==> procs[i] in ring && procs[i] in out
  {
    if procs == [] then 0
    else RingLoad(procs[0], ring[procs[0]].items) + OutLoad(procs[0], out[procs[0]]) + Load(ring, out, procs[1..])
  }

  /** All processes, each once. */
  ghost predicate Lists(procs: seq<int>, n: Net) {
    && NetShape(n)
    && (forall i, j :: 0 <= i < j < |procs| ==> procs[i] != procs[j])
    && (forall p :: p in procs <==> p in n.ring)
  }

  ghost function LoadOf(n: Net, procs: seq<int>): nat
    requires Lists(procs, n)
  {
    Load(n.ring, n.out, procs)
  }

  lemma {:induction false} Listing(ps: set<int>) returns (procs: seq<int>)
    ensures forall i, j :: 0 <= i < j < |procs| ==> procs[i] != procs[j]
    ensures forall p :: p in procs <==> p in ps
  {
    if p :| p in ps {
      var rest := Listing(ps - {p});
      procs := [p] + rest;
    } else {
      procs := [];
    }
  }

  lemma {:induction false} RingLoadAppend(p: int, xs: seq<Item>, x: Item)
    ensures RingLoad(p, xs + [x]) == RingLoad(p, xs) + RingHops(p, x)
  {
    if xs != [] {
      assert (xs + [x])[1..] == xs[1..] + [x];
      RingLoadAppend(p, xs[1..], x);
    }
  }

  lemma {:induction false} OutLoadAppend(p: int, xs: seq<Item>, x: Item)
    ensures OutLoad(p, xs + [x]) == OutLoad(p, xs) + OutHops(p, x)
  {
    if xs != [] {
      assert (xs + [x])[1..] == xs[1..] + [x];
      OutLoadAppend(p, xs[1..], x);
    }
  }

  /** What changes at one process changes the sum by as much. */
  lemma {:induction false} LoadChanges(ring: map<int, Queue>, out: map<int, seq<Item>>,
                                       ring': map<int, Queue>, out': map<int, seq<Item>>, procs: seq<int>, p: int)
    requires forall i :: 0 <= i < |procs| ==> procs[i] in ring && procs[i] in out && procs[i] in ring' && procs[i] in out'
    requires forall i, j :: 0 <= i < j < |procs| ==> procs[i] != procs[j]
    requires forall q :: q in procs && q != p ==> ring'[q].items == ring[q].items && out'[q] == out[q]
    ensures p !in procs ==> Load(ring', out', procs) == Load(ring, out, procs)
    ensures p in procs ==> p in ring && p in out && p in ring' && p in out'
    ensures p in procs ==>
              Load(ring', out', procs) + RingLoad(p, ring[p].items) + OutLoad(p, out[p])
              == Load(ring, out, procs) + RingLoad(p, ring'[p].items) + OutLoad(p, out'[p])
  {
    hide RingLoad, OutLoad;
    if procs != [] {
      LoadChanges(ring, out, ring', out', procs[1..], p);
      assert procs == [procs[0]] + procs[1..];
    }
  }

  // ---- the steps

  lemma TakenLoad(n: Net, procs: seq<int>, p: int)
    requires Lists(procs, n) && p in n.ring && n.ring[p].items != []
    ensures Lists(procs, Taken(n, p)) && LoadOf(Taken(n, p), procs) + RingHops(p, n.ring[p].items[0]) == LoadOf(n, procs)
  {
    hide RingHops, OutLoad;
    var n' := Taken(n, p);
    LoadChanges(n.ring, n.out, n'.ring, n'.out, procs, p);
  }

  lemma QueuedLoad(n: Net, procs: seq<int>, to: int, x: Item)
    requires Lists(procs, n) && to in n.ring
    ensures Lists(procs, Queued(n, to, x)) && LoadOf(Queued(n, to, x), procs) == LoadOf(n, procs) + RingHops(to, x)
  {
    hide RingHops, OutLoad;
    var n' := Queued(n, to, x);
    LoadChanges(n.ring, n.out, n'.ring, n'.out, procs, to);
    RingLoadAppend(to, n.ring[to].items, x);
  }

  lemma AppendedLoad(n: Net, procs: seq<int>, at: int, x: Item)
    requires Lists(procs, n) && at in n.ring
    ensures Lists(procs, Appended(n, at, x)) && LoadOf(Appended(n, at, x), procs) == LoadOf(n, procs) + OutHops(at, x)
  {
    hide OutHops, RingLoad;
    var n' := Appended(n, at, x);
    LoadChanges(n.ring, n.out, n'.ring, n'.out, procs, at);
    OutLoadAppend(at, n.out[at], x);
  }

  lemma PoppedLoad(n: Net, procs: seq<int>, at: int)
    requires Lists(procs, n) && at in n.ring && n.out[at] != []
    ensures Lists(procs, Popped(n, at)) && LoadOf(Popped(n, at), procs) + OutHops(at, n.out[at][0]) == LoadOf(n, procs)
  {
    hide OutHops, RingLoad;
    var n' := Popped(n, at);
    LoadChanges(n.ring, n.out, n'.ring, n'.out, procs, at);
  }

  /** Marking a ring, or opening it. */
  lemma MarkLoad(n: Net, procs: seq<int>, p: int, full: bool)
    requires Lists(procs, n) && p in n.ring
    ensures var n' := n.(ring := n.ring[p := n.ring[p].(full := full)]); Lists(procs, n') && LoadOf(n', procs) == LoadOf(n, procs)
  {
    hide OutLoad, RingLoad;
    var n' := n.(ring := n.ring[p := n.ring[p].(full := full)]);
    LoadChanges(n.ring, n.out, n'.ring, n'.out, procs, p);
  }

  /** A message waits where it was sent, or at the manager if it goes through it. */
  predicate AtHome(p: int, x: Item) { x.src == p || (p == MANAGER && Proxied(x.src, x.dst)) }

  /** Retrying never adds to what is left, and takes from it if the first ring accepts. */
  lemma {:induction false} FlushLoad(n: Net, procs: seq<int>, at: int)
    requires Lists(procs, n) && at in n.ring && forall x :: x in n.out[at] ==> NextHop(at, x) in n.ring && AtHome(at, x)
    ensures Lists(procs, Flush(n, at)) && LoadOf(Flush(n, at), procs) <= LoadOf(n, procs)
    ensures n.out[at] != [] && Accepts(n.ring[NextHop(at, n.out[at][0])]) ==> LoadOf(Flush(n, at), procs) < LoadOf(n, procs)
    ensures Flush(n, at).accepted == n.accepted && Flush(n, at).dropped == n.dropped
    decreases if at in n.out then |n.out[at]| else 0
  {
    hide Load, Lists, LoadOf;
    ListsMeans(procs, n);
    if n.out[at] != [] {
      var x := n.out[at][0];
      var to := NextHop(at, x);
      if Accepts(n.ring[to]) {
        PoppedLoad(n, procs, at);
        QueuedLoad(Popped(n, at), procs, to, x);
        FlushLoad(Queued(Popped(n, at), to, x), procs, at);
      } else {
        MarkLoad(n, procs, to, true);
        LoadSame(Filled(n, to), Flush(n, at), procs);
      }
    }
  }

  lemma ListsMeans(procs: seq<int>, n: Net)
    requires Lists(procs, n)
    ensures NetShape(n)
  {
  }

  lemma LoadSame(n: Net, n': Net, procs: seq<int>)
    requires Lists(procs, n) && n'.ring == n.ring && n'.out == n.out && n'.armed.Keys == n.armed.Keys
    ensures Lists(procs, n') && LoadOf(n', procs) == LoadOf(n, procs)
  {
  }

  /** Reading a message takes from what is left, and drops nothing. */
  lemma ReceiveLoad(n: Net, procs: seq<int>, p: int)
    requires Inv(n) && Lists(procs, n) && p in n.ring && n.ring[p].items != []
    ensures Enabled(n, Receive(p, true, false, true))
    ensures var n' := Apply(n, Receive(p, true, false, true));
            Lists(procs, n') && LoadOf(n', procs) < LoadOf(n, procs) && n'.accepted == n.accepted && n'.dropped == n.dropped
  {
    var x, e := n.ring[p].items[0], Receive(p, true, false, true);
    assert PlaceOk(n, p) && InRing(n.ring.Keys, |n.accepted|, p, x);
    hide Inv, LoadOf, Lists;
    ListsMeans(procs, n);
    TakenLoad(n, procs, p);
    var n1 := Taken(n, p);
    if x.dst == p {
      LoadSame(n1, Apply(n, e), procs);
    } else if n1.out[p] != [] {
      AppendedLoad(n1, procs, p, x);
    } else if Accepts(n1.ring[x.dst]) {
      QueuedLoad(n1, procs, x.dst, x);
    } else {
      MarkLoad(n1, procs, x.dst, true);
      AppendedLoad(Filled(n1, x.dst), procs, p, x);
    }
  }

  /** An empty ring is opened, and the process at the front of it retries. */
  lemma RetryLoad(n: Net, procs: seq<int>, p: int)
    requires Inv(n) && Lists(procs, n) && p in n.ring && n.out[p] != [] && forall q :: q in n.ring ==> n.ring[q].items == []
    ensures NextHop(p, n.out[p][0]) in n.ring && Enabled(n, Drained(NextHop(p, n.out[p][0])))
    ensures var n1 := Apply(n, Drained(NextHop(p, n.out[p][0])));
            && Enabled(n1, Retry(p))
            && var n' := Apply(n1, Retry(p));
            Lists(procs, n') && LoadOf(n', procs) < LoadOf(n, procs) && n'.accepted == n.accepted && n'.dropped == n.dropped
  {
    assert PlaceOk(n, p);
    forall x | x in n.out[p] ensures NextHop(p, x) in n.ring && AtHome(p, x) {
      assert Waiting(n.ring.Keys, |n.accepted|, p, x);
    }
    var to := NextHop(p, n.out[p][0]);
    var n1 := Apply(n, Drained(to));
    MarkLoad(n, procs, to, false);
    hide LoadOf, Lists, Inv;
    FlushLoad(n1, procs, p);
  }

  // ---- the run

  ghost predicate Leads(n: Net, es: seq<Event>, t: Net) {
    Run(n, es) && (forall e :: e in es ==> Works(e)) && After(n, es) == t
  }

  lemma Prepend(n: Net, e: Event, es: seq<Event>, t: Net)
    requires Enabled(n, e) && Works(e) && Leads(Apply(n, e), es, t)
    ensures Leads(n, [e] + es, t)
  {
    hide Enabled, Apply;
    assert ([e] + es)[1..] == es;
  }

  /** Nothing is on its way. */
  predicate Settled(n: Net) {
    NetShape(n) && forall p :: p in n.ring ==> n.ring[p].items == [] && n.out[p] == []
  }

  lemma {:induction false} Settles(n: Net, procs: seq<int>) returns (es: seq<Event>, t: Net)
    requires Inv(n) && Lists(procs, n)
    ensures Leads(n, es, t) && Inv(t) && Settled(t)
    ensures t.ring.Keys == n.ring.Keys && t.accepted == n.accepted && t.dropped == n.dropped
    decreases LoadOf(n, procs)
  {
    ListsMeans(procs, n);
    hide Inv, Lists, LoadOf, Apply, Enabled, Leads, AtHome;
    if p :| p in n.ring && n.ring[p].items != [] {
      var e := Receive(p, true, false, true);
      ReceiveLoad(n, procs, p);
      StepKeeps(n, e);
      SameProcs(n, e);
      es, t := Settles(Apply(n, e), procs);
      Prepend(n, e, es, t);
      es := [e] + es;
    } else if p :| p in n.ring && n.out[p] != [] {
      RetryLoad(n, procs, p);
      var e := Drained(NextHop(p, n.out[p][0]));
      var n1 := Apply(n, e);
      StepKeeps(n, e);
      SameProcs(n, e);
      StepKeeps(n1, Retry(p));
      SameProcs(n1, Retry(p));
      es, t := Settles(Apply(n1, Retry(p)), procs);
      Prepend(n1, Retry(p), es, t);
      Prepend(n, e, [Retry(p)] + es, t);
      es := [e] + ([Retry(p)] + es);
    } else {
      es, t := [], n;
      assert Leads(n, [], n);
    }
  }

  /** Once nothing is on its way, what was accepted and not dropped has been delivered. */
  lemma SettledDelivers(n: Net, s: int, d: int)
    requires Inv(n) && Settled(n) && s in n.ring && d in n.ring
    ensures Keep(n.delivered, s, d, {}) == Keep(n.accepted, s, d, n.dropped)
  {
    assert PairOk(n, s, d);
    KeepNone([], s, d, {});
  }

  /** From wherever the processes are, there is a run of reading and retrying alone, with receivers that
      are up and memory for the manager, after which every accepted message that was not dropped before has
      been delivered, once, in the order of acceptance between any two processes, and nothing more is
      dropped. */
  lemma AllArrive(n: Net) returns (es: seq<Event>, t: Net)
    requires Inv(n)
    ensures Leads(n, es, t) && t.ring.Keys == n.ring.Keys && t.accepted == n.accepted && t.dropped == n.dropped
    ensures forall s, d :: s in n.ring && d in n.ring ==> Keep(t.delivered, s, d, {}) == Keep(n.accepted, s, d, n.dropped)
    ensures forall x :: x in n.accepted && x.id !in n.dropped && x.src in n.ring && x.dst in n.ring ==> x in t.delivered
  {
    hide Keep, Leads;
    var procs := Listing(n.ring.Keys);
    es, t := Settles(n, procs);
    forall s, d | s in n.ring && d in n.ring
      ensures Keep(t.delivered, s, d, {}) == Keep(n.accepted, s, d, n.dropped)
    {
      SettledDelivers(t, s, d);
    }
    forall x | x in n.accepted && x.id !in n.dropped && x.src in n.ring && x.dst in n.ring ensures x in t.delivered {
      KeepIn(n.accepted, x.src, x.dst, n.dropped, x);
      KeepIn(t.delivered, x.src, x.dst, {}, x);
    }
  }
}
