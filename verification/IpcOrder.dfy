/** Messages between two processes arrive complete and in order. */
module IpcOrder {
  import opened IpcQueue

  lemma {:induction false} KeepAppend(a: seq<Item>, b: seq<Item>, s: int, d: int, dropped: set<nat>)
    ensures Keep(a + b, s, d, dropped) == Keep(a, s, d, dropped) + Keep(b, s, d, dropped)
    decreases |b|
  {
    if b == [] {
      assert a + b == a;
    } else {
      assert (a + b)[..|a + b| - 1] == a + b[..|b| - 1];
      KeepAppend(a, b[..|b| - 1], s, d, dropped);
    }
  }

  lemma KeepOne(xs: seq<Item>, x: Item, s: int, d: int, dropped: set<nat>)
    ensures Keep(xs + [x], s, d, dropped) == Keep(xs, s, d, dropped) + Keep([x], s, d, dropped)
    ensures Keep([x], s, d, dropped) == if x.src == s && x.dst == d && x.id !in dropped then [x] else []
  {
    KeepAppend(xs, [x], s, d, dropped);
    assert [x][..0] == [];
  }

  lemma KeepHead(xs: seq<Item>, s: int, d: int, dropped: set<nat>)
    requires xs != []
    ensures Keep(xs, s, d, dropped) == Keep([xs[0]], s, d, dropped) + Keep(xs[1..], s, d, dropped)
    ensures Keep([xs[0]], s, d, dropped) == if xs[0].src == s && xs[0].dst == d && xs[0].id !in dropped then [xs[0]] else []
  {
    assert xs == [xs[0]] + xs[1..];
    KeepAppend([xs[0]], xs[1..], s, d, dropped);
    KeepOne([], xs[0], s, d, dropped);
  }

  /** Dropping more is keeping less of what was kept. */
  lemma {:induction false} KeepKeep(xs: seq<Item>, s: int, d: int, dropped: set<nat>, more: set<nat>)
    ensures Keep(xs, s, d, dropped + more) == Keep(Keep(xs, s, d, dropped), s, d, more)
    decreases |xs|
  {
    if xs != [] {
      var init, x := xs[..|xs| - 1], xs[|xs| - 1];
      KeepKeep(init, s, d, dropped, more);
      KeepOne(Keep(init, s, d, dropped), x, s, d, more);
    }
  }

  lemma {:induction false} KeepAll(xs: seq<Item>, s: int, d: int, dropped: set<nat>)
    requires AllKept(xs, s, d, dropped)
    ensures Keep(xs, s, d, dropped) == xs
    decreases |xs|
  {
    if xs != [] {
      KeepAll(xs[..|xs| - 1], s, d, dropped);
      assert xs == xs[..|xs| - 1] + [xs[|xs| - 1]];
    }
  }

  lemma {:induction false} KeepNone(xs: seq<Item>, s: int, d: int, dropped: set<nat>)
    requires forall x :: x in xs ==> x.src != s || x.dst != d || x.id in dropped
    ensures Keep(xs, s, d, dropped) == []
    decreases |xs|
  {
    if xs != [] {
      KeepNone(xs[..|xs| - 1], s, d, dropped);
    }
  }

  lemma {:induction false} KeepIn(xs: seq<Item>, s: int, d: int, dropped: set<nat>, x: Item)
    ensures x in Keep(xs, s, d, dropped) <==> x in xs && x.src == s && x.dst == d && x.id !in dropped
    decreases |xs|
  {
    if xs != [] {
      KeepIn(xs[..|xs| - 1], s, d, dropped, x);
      assert xs == xs[..|xs| - 1] + [xs[|xs| - 1]];
    }
  }

  /** The messages of one pair keep the order in which they were accepted. */
  ghost predicate Increasing(xs: seq<Item>) {
    forall i, j :: 0 <= i < j < |xs| ==> xs[i].id < xs[j].id
  }

  lemma {:induction false} KeepIncreasing(xs: seq<Item>, s: int, d: int, dropped: set<nat>)
    requires forall i :: 0 <= i < |xs| ==> xs[i].id == i
    ensures Increasing(Keep(xs, s, d, dropped))
    decreases |xs|
  {
    if xs != [] {
      var init := xs[..|xs| - 1];
      KeepIncreasing(init, s, d, dropped);
      forall x | x in Keep(init, s, d, dropped) ensures x.id < |xs| - 1 {
        KeepIn(init, s, d, dropped, x);
      }
    }
  }

  /** Dropping one stretch of a journey leaves the rest. */
  lemma CutOut(a: seq<Item>, b: seq<Item>, c: seq<Item>, s: int, d: int, more: set<nat>)
    requires AllKept(a, s, d, more) && AllKept(c, s, d, more)
    requires forall x :: x in b ==> x.id in more
    ensures Keep(a + b + c, s, d, more) == a + c
  {
    hide Keep;
    KeepAppend(a + b, c, s, d, more);
    KeepAppend(a, b, s, d, more);
    KeepAll(a, s, d, more);
    KeepNone(b, s, d, more);
    KeepAll(c, s, d, more);
    assert a + [] + c == a + c;
  }

  ghost predicate AllKept(xs: seq<Item>, s: int, d: int, more: set<nat>) {
    forall x :: x in xs ==> x.src == s && x.dst == d && x.id !in more
  }

  /** What is on its way between two processes is what was accepted under its number, and no
      number occurs twice. */
  lemma JourneyOk(n: Net, s: int, d: int)
    requires Inv(n) && s in n.ring && d in n.ring
    ensures Increasing(Journey(n, s, d))
    ensures forall x :: x in Journey(n, s, d) ==>
              x.src == s && x.dst == d && x.id < |n.accepted| && n.accepted[x.id] == x && x.id !in n.dropped
  {
    assert PairOk(n, s, d);
    KeepIncreasing(n.accepted, s, d, n.dropped);
    forall x | x in Journey(n, s, d)
      ensures x.src == s && x.dst == d && x.id < |n.accepted| && n.accepted[x.id] == x && x.id !in n.dropped
    {
      KeepIn(n.accepted, s, d, n.dropped, x);
    }
  }

  /** The parts of a journey: up to and including the overflow queue towards the receiver, and
      before it. */
  function Far(n: Net, s: int, d: int): seq<Item>
    requires NetShape(n) && s in n.ring && d in n.ring
  {
    Keep(n.delivered, s, d, {}) + Keep(n.ring[d].items, s, d, {})
    + Keep(n.out[if Proxied(s, d) then MANAGER else s], s, d, {})
  }

  function Near(n: Net, s: int, d: int): seq<Item>
    requires NetShape(n) && s in n.ring && d in n.ring
  {
    if Proxied(s, d) then Keep(n.ring[MANAGER].items, s, d, {}) + Keep(n.out[s], s, d, {}) else []
  }

  lemma FarNear(n: Net, s: int, d: int)
    requires NetShape(n) && s in n.ring && d in n.ring
    ensures Journey(n, s, d) == Far(n, s, d) + Near(n, s, d)
  {
  }

  predicate Ready(n: Net, s: int, d: int) { NetShape(n) && s in n.ring && d in n.ring }

  /** A message goes into a ring. */
  lemma QueuedJourney(n: Net, to: int, x: Item, s: int, d: int)
    requires Ready(n, s, d) && to in n.ring
    requires s == x.src && d == x.dst ==>
               if to == d then Keep(n.out[if Proxied(s, d) then MANAGER else s], s, d, {}) == []
               else to == MANAGER && Proxied(s, d) && Keep(n.out[s], s, d, {}) == []
    ensures var n' := Queued(n, to, x);
            Ready(n', s, d)
            && Far(n', s, d) == Far(n, s, d) + (if (s, d, to) == (x.src, x.dst, d) then [x] else [])
            && Near(n', s, d) == Near(n, s, d) + (if (s, d) == (x.src, x.dst) && to != d then [x] else [])
  {
    hide Keep;
    KeepOne(n.ring[to].items, x, s, d, {});
  }

  /** A message is put behind the ones waiting. */
  lemma AppendedJourney(n: Net, at: int, x: Item, s: int, d: int)
    requires Ready(n, s, d) && at in n.ring && (at == x.src || (at == MANAGER && Proxied(x.src, x.dst)))
    ensures var n' := Appended(n, at, x);
            Ready(n', s, d)
            && Far(n', s, d) == Far(n, s, d) + (if (s, d) == (x.src, x.dst) && (at == MANAGER || !Proxied(s, d)) then [x] else [])
            && Near(n', s, d) == Near(n, s, d) + (if (s, d) == (x.src, x.dst) && at != MANAGER && Proxied(s, d) then [x] else [])
  {
    hide Keep;
    KeepOne(n.out[at], x, s, d, {});
  }

  lemma FilledJourney(n: Net, to: int, s: int, d: int)
    requires Ready(n, s, d) && to in n.ring
    ensures Ready(Filled(n, to), s, d) && Far(Filled(n, to), s, d) == Far(n, s, d) && Near(Filled(n, to), s, d) == Near(n, s, d)
  {
    hide Keep;
  }

  /** Sending on puts the message behind everything of its pair that is ahead of it, and
      touches no other pair. */
  lemma ForwardJourney(n: Net, at: int, x: Item, starting: bool, s: int, d: int)
    requires Ready(n, s, d) && at in n.ring && NextHop(at, x) in n.ring
    requires at == x.src || (at == MANAGER && Proxied(x.src, x.dst))
    ensures var n' := Forward(n, at, x, starting);
            var far := at == MANAGER || !Proxied(x.src, x.dst);
            Ready(n', s, d) && n'.ring.Keys == n.ring.Keys
            && Far(n', s, d) == Far(n, s, d) + (if (s, d) == (x.src, x.dst) && far then [x] else [])
            && Near(n', s, d) == Near(n, s, d) + (if (s, d) == (x.src, x.dst) && !far then [x] else [])
  {
    hide Keep, Far, Near;
    var to := NextHop(at, x);
    if n.out[at] != [] || starting {
      AppendedJourney(n, at, x, s, d);
    } else if Accepts(n.ring[to]) {
      KeepNone([], s, d, {});
      QueuedJourney(n, to, x, s, d);
    } else {
      FilledJourney(n, to, s, d);
      AppendedJourney(Filled(n, to), at, x, s, d);
    }
  }

  /** Sending on keeps every place in order. */
  lemma ForwardPlaces(n: Net, at: int, x: Item, starting: bool, p: int)
    requires NetShape(n) && at in n.ring && p in n.ring && PlaceOk(n, p)
    requires Waiting(n.ring.Keys, |n.accepted|, at, x)
    ensures NextHop(at, x) in n.ring && NetShape(Forward(n, at, x, starting)) && PlaceOk(Forward(n, at, x, starting), p)
  {
    assert MANAGER in n.ring;
    var to := NextHop(at, x);
    hide PlaceOk;
    if n.out[at] != [] || starting {
      AppendedPlace(n, at, x, p);
    } else if Accepts(n.ring[to]) {
      QueuedPlace(n, to, x, p);
    } else {
      FilledPlace(n, to, p);
      AppendedPlace(Filled(n, to), at, x, p);
    }
  }

  lemma AppendedPlace(n: Net, at: int, x: Item, p: int)
    requires NetShape(n) && at in n.ring && p in n.ring && PlaceOk(n, p) && Waiting(n.ring.Keys, |n.accepted|, at, x)
    ensures NetShape(Appended(n, at, x)) && PlaceOk(Appended(n, at, x), p)
  {
  }

  lemma QueuedPlace(n: Net, to: int, x: Item, p: int)
    requires NetShape(n) && to in n.ring && p in n.ring && PlaceOk(n, p) && InRing(n.ring.Keys, |n.accepted|, to, x)
    requires Accepts(n.ring[to])
    ensures NetShape(Queued(n, to, x)) && PlaceOk(Queued(n, to, x), p)
  {
  }

  lemma FilledPlace(n: Net, to: int, p: int)
    requires NetShape(n) && to in n.ring && p in n.ring && PlaceOk(n, p)
    ensures NetShape(Filled(n, to)) && PlaceOk(Filled(n, to), p)
  {
  }

  /** A message moves from the head of an overflow queue into a ring. */
  lemma PopJourney(n: Net, at: int, s: int, d: int)
    requires Ready(n, s, d) && at in n.ring && n.out[at] != [] && NextHop(at, n.out[at][0]) in n.ring
    requires Waiting(n.ring.Keys, |n.accepted|, at, n.out[at][0])
    ensures var x := n.out[at][0];
            var n' := Queued(Popped(n, at), NextHop(at, x), x);
            Ready(n', s, d) && Journey(n', s, d) == Journey(n, s, d)
  {
    hide Keep;
    var x := n.out[at][0];
    var to := NextHop(at, x);
    if (s, d) == (x.src, x.dst) {
      PopSame(n, at, x, to);
    } else {
      PopOther(n, at, x, to, s, d);
    }
  }

  lemma PopOther(n: Net, at: int, x: Item, to: int, s: int, d: int)
    requires Ready(n, s, d) && at in n.ring && n.out[at] != [] && x == n.out[at][0] && to in n.ring && (s, d) != (x.src, x.dst)
    ensures Journey(Queued(Popped(n, at), to, x), s, d) == Journey(n, s, d)
  {
    hide Keep;
    KeepHead(n.out[at], s, d, {});
    KeepOne(n.ring[to].items, x, s, d, {});
  }

  lemma PopSame(n: Net, at: int, x: Item, to: int)
    requires Ready(n, x.src, x.dst) && at in n.ring && n.out[at] != [] && x == n.out[at][0] && to == NextHop(at, x) && to in n.ring
    requires at == x.src || (at == MANAGER && Proxied(x.src, x.dst))
    ensures Journey(Queued(Popped(n, at), to, x), x.src, x.dst) == Journey(n, x.src, x.dst)
  {
    hide Keep;
    var s, d := x.src, x.dst;
    KeepHead(n.out[at], s, d, {});
    KeepOne(n.ring[to].items, x, s, d, {});
    var n' := Queued(Popped(n, at), to, x);
    assert Keep(n'.ring[to].items, s, d, {}) + Keep(n'.out[at], s, d, {}) == Keep(n.ring[to].items, s, d, {}) + Keep(n.out[at], s, d, {});
  }

  lemma PopKeeps(n: Net, at: int)
    requires Inv(n) && at in n.ring && n.out[at] != [] && NextHop(at, n.out[at][0]) in n.ring
    requires Accepts(n.ring[NextHop(at, n.out[at][0])])
    ensures Inv(Queued(Popped(n, at), NextHop(at, n.out[at][0]), n.out[at][0]))
  {
    hide Journey, Keep;
    var x := n.out[at][0];
    var n' := Queued(Popped(n, at), NextHop(at, x), x);
    assert x in n.out[at] && PlaceOk(n, at);
    forall p | p in n'.ring ensures PlaceOk(n', p) {
      assert PlaceOk(n, p);
      assert forall y :: y in n.out[at][1..] ==> y in n.out[at];
    }
    forall s, d | s in n'.ring && d in n'.ring ensures PairOk(n', s, d) {
      assert PairOk(n, s, d);
      PopJourney(n, at, s, d);
    }
  }

  lemma FilledKeeps(n: Net, to: int, armed: map<int, bool>)
    requires Inv(n) && to in n.ring && armed.Keys == n.armed.Keys && forall p :: p in armed && n.armed[p] ==> armed[p]
    ensures Inv(Filled(n, to).(armed := armed))
  {
    hide Keep;
    var n' := Filled(n, to).(armed := armed);
    forall p | p in n'.ring ensures PlaceOk(n', p) {
      assert PlaceOk(n, p);
    }
    forall s, d | s in n'.ring && d in n'.ring ensures PairOk(n', s, d) {
      assert PairOk(n, s, d);
      FilledJourney(n, to, s, d);
    }
  }

  lemma {:induction false} FlushKeeps(n: Net, at: int)
    requires Inv(n) && at in n.ring && forall x :: x in n.out[at] ==> NextHop(at, x) in n.ring
    ensures Inv(Flush(n, at))
    decreases if at in n.out then |n.out[at]| else 0
  {
    assert NetShape(n);
    hide Inv;
    if n.out[at] != [] {
      var x := n.out[at][0];
      if Accepts(n.ring[NextHop(at, x)]) {
        PopKeeps(n, at);
        FlushKeeps(Queued(Popped(n, at), NextHop(at, x), x), at);
      } else {
        FilledKeeps(n, NextHop(at, x), n.armed[at := true]);
      }
    }
  }

  lemma DrainedKeeps(n: Net, p: int)
    requires Inv(n) && Enabled(n, Drained(p))
    ensures Inv(Apply(n, Drained(p)))
  {
    hide Keep;
    var n' := Apply(n, Drained(p));
    forall q | q in n'.ring ensures PlaceOk(n', q) {
      assert PlaceOk(n, q);
    }
    forall s, d | s in n'.ring && d in n'.ring ensures PairOk(n', s, d) {
      assert PairOk(n, s, d);
    }
  }

  lemma AcceptedKeep(n: Net, x: Item, s: int, d: int)
    requires x.id == |n.accepted| && forall id :: id in n.dropped ==> id < |n.accepted|
    ensures Keep(n.accepted + [x], s, d, n.dropped) ==
            Keep(n.accepted, s, d, n.dropped) + (if (s, d) == (x.src, x.dst) then [x] else [])
  {
    KeepOne(n.accepted, x, s, d, n.dropped);
  }

  lemma SendKeeps(n: Net, e: Event)
    requires Inv(n) && e.Send? && Enabled(n, e)
    ensures Inv(Apply(n, e))
  {
    hide Keep, Far, Near, Journey, Forward;
    var x := Item(e.src, e.dst, e.code, e.ptr, |n.accepted|);
    if !e.admitted {
    } else if Overflows(n, e.src, x, e.starting) && !e.memory {
      FilledKeeps(n, NextHop(e.src, x), n.armed);
    } else {
      var n0 := n.(accepted := n.accepted + [x]);
      var n' := Apply(n, e);
      ForwardLog(n, e.src, x, e.starting, n0.accepted);
      forall p | p in n0.ring ensures PlaceOk(n', p) {
        assert PlaceOk(n, p);
        ForwardPlaces(n0, e.src, x, e.starting, p);
      }
      forall s, d | s in n0.ring && d in n0.ring ensures PairOk(n', s, d) {
        assert PairOk(n, s, d);
        FarNear(n, s, d);
        FarNear(n', s, d);
        ForwardJourney(n0, e.src, x, e.starting, s, d);
        SameParts(n, n0, s, d);
        AcceptedKeep(n, x, s, d);
        if Proxied(s, d) {
          assert Far(n, s, d) + (Near(n, s, d) + [x]) == Far(n, s, d) + Near(n, s, d) + [x];
        } else {
          NoNear(n, s, d);
        }
      }
    }
  }

  lemma NoNear(n: Net, s: int, d: int)
    requires Ready(n, s, d) && !Proxied(s, d)
    ensures Near(n, s, d) == []
  {
  }

  lemma ForwardLog(n: Net, at: int, x: Item, starting: bool, accepted: seq<Item>)
    requires NetShape(n) && at in n.ring && NextHop(at, x) in n.ring
    ensures Forward(n, at, x, starting).(accepted := accepted) == Forward(n.(accepted := accepted), at, x, starting)
    ensures Forward(n, at, x, starting).dropped == n.dropped && Forward(n, at, x, starting).accepted == n.accepted
    ensures NetShape(Forward(n, at, x, starting)) && Forward(n, at, x, starting).ring.Keys == n.ring.Keys
  {
  }

  lemma SameParts(n: Net, n0: Net, s: int, d: int)
    requires Ready(n, s, d) && n0 == n.(accepted := n0.accepted, dropped := n0.dropped)
    ensures Far(n0, s, d) == Far(n, s, d) && Near(n0, s, d) == Near(n, s, d) && Journey(n0, s, d) == Journey(n, s, d)
  {
  }

  /** Dropping what is in one stretch of a pair's journey. */
  lemma DropKeeps(n: Net, n': Net, more: set<nat>, s: int, d: int, a: seq<Item>, b: seq<Item>, c: seq<Item>)
    requires Ready(n, s, d) && Ready(n', s, d) && PairOk(n, s, d)
    requires Journey(n, s, d) == a + b + c && Journey(n', s, d) == a + c
    requires n'.accepted == n.accepted && n'.dropped == n.dropped + more
    requires AllKept(a, s, d, more) && AllKept(c, s, d, more) && forall x :: x in b ==> x.id in more
    ensures PairOk(n', s, d)
  {
    hide Journey, AllKept;
    CutOut(a, b, c, s, d, more);
    KeepKeep(n.accepted, s, d, n.dropped, more);
  }

  /** The manager takes a message off its ring that it does not keep. */
  lemma TakeJourney(n: Net, s: int, d: int)
    requires Ready(n, s, d) && n.ring[MANAGER].items != [] && Proxied(n.ring[MANAGER].items[0].src, n.ring[MANAGER].items[0].dst)
    ensures var n1, x := Taken(n, MANAGER), n.ring[MANAGER].items[0];
            Ready(n1, s, d) && Far(n1, s, d) == Far(n, s, d)
            && Near(n, s, d) == (if (s, d) == (x.src, x.dst) then [x] else []) + Near(n1, s, d)
  {
    hide Keep;
    KeepHead(n.ring[MANAGER].items, s, d, {});
  }

  lemma DeliverJourney(n: Net, p: int, s: int, d: int)
    requires Ready(n, s, d) && p in n.ring && n.ring[p].items != [] && n.ring[p].items[0].dst == p
    ensures var n' := Taken(n, p).(delivered := n.delivered + [n.ring[p].items[0]]);
            Ready(n', s, d) && Journey(n', s, d) == Journey(n, s, d)
  {
    hide Keep;
    var x := n.ring[p].items[0];
    KeepHead(n.ring[p].items, s, d, {});
    KeepOne(n.delivered, x, s, d, {});
  }

  lemma TakenPlaces(n: Net, p: int, q: int)
    requires NetShape(n) && p in n.ring && n.ring[p].items != [] && q in n.ring && PlaceOk(n, q)
    ensures NetShape(Taken(n, p)) && PlaceOk(Taken(n, p), q)
  {
    assert forall y :: y in n.ring[p].items[1..] ==> y in n.ring[p].items;
  }

  /** Nobody else's message has the number of one that is accepted. */
  lemma OthersKept(n: Net, x: Item, s: int, d: int)
    requires Inv(n) && s in n.ring && d in n.ring && x.src in n.ring && x.dst in n.ring
    requires x in Journey(n, x.src, x.dst)
    ensures (s, d) != (x.src, x.dst) ==> AllKept(Journey(n, s, d), s, d, {x.id})
  {
    hide Journey;
    JourneyOk(n, x.src, x.dst);
    JourneyOk(n, s, d);
  }

  lemma RefuseKeeps(n: Net, n': Net)
    requires Inv(n) && n.ring[MANAGER].items != []
    requires n.ring[MANAGER].items[0].dst != MANAGER
    requires Ready(n', n.ring[MANAGER].items[0].src, n.ring[MANAGER].items[0].dst)
    requires n' == Taken(n, MANAGER).(dropped := n.dropped + {n.ring[MANAGER].items[0].id})
    ensures Inv(n')
  {
    hide Keep, Far, Near, Journey, Increasing, AllKept;
    var x := n.ring[MANAGER].items[0];
    assert PlaceOk(n, MANAGER) && x in n.ring[MANAGER].items;
    forall q | q in n'.ring ensures PlaceOk(n', q) {
      TakenPlaces(n, MANAGER, q);
    }
    TakeJourney(n, x.src, x.dst);
    FarNear(n, x.src, x.dst);
    assert x in Journey(n, x.src, x.dst) by {
      assert x in [x] + Near(Taken(n, MANAGER), x.src, x.dst);
    }
    forall s, d | s in n'.ring && d in n'.ring ensures PairOk(n', s, d) {
      assert PairOk(n, s, d);
      var n1 := Taken(n, MANAGER);
      TakeJourney(n, s, d);
      FarNear(n, s, d);
      FarNear(n1, s, d);
      SameParts(n1, n', s, d);
      RefusePair(n, n', x, s, d, Far(n, s, d), Near(n1, s, d));
    }
  }

  lemma RefusePair(n: Net, n': Net, x: Item, s: int, d: int, far: seq<Item>, near: seq<Item>)
    requires Inv(n) && Ready(n, s, d) && Ready(n', s, d) && Ready(n, x.src, x.dst) && x in Journey(n, x.src, x.dst)
    requires Journey(n, s, d) == far + (if (s, d) == (x.src, x.dst) then [x] else []) + near && Journey(n', s, d) == far + near
    requires n'.accepted == n.accepted && n'.dropped == n.dropped + {x.id}
    ensures PairOk(n', s, d)
  {
    hide Keep, Journey;
    assert PairOk(n, s, d);
    JourneyOk(n, s, d);
    OthersKept(n, x, s, d);
    var b := if (s, d) == (x.src, x.dst) then [x] else [];
    var j := Journey(n, s, d);
    if b == [] {
      assert j == far + near;
    } else {
      assert j[|far|] == x && forall i :: 0 <= i < |far| ==> j[i] == far[i];
      assert forall i :: 0 <= i < |near| ==> j[|far| + 1 + i] == near[i];
    }
    DropKeeps(n, n', {x.id}, s, d, far, b, near);
  }

  lemma ReceiveKeeps(n: Net, e: Event)
    requires Inv(n) && e.Receive? && Enabled(n, e)
    ensures Inv(Apply(n, e))
  {
    hide Keep, Far, Near, Journey, Forward;
    var p := e.at;
    var x, n1, n' := n.ring[p].items[0], Taken(n, p), Apply(n, e);
    assert PlaceOk(n, p) && x in n.ring[p].items;
    forall q | q in n.ring ensures PlaceOk(n1, q) {
      TakenPlaces(n, p, q);
    }
    if x.dst == p {
      forall s, d | s in n.ring && d in n.ring ensures PairOk(n', s, d) {
        assert PairOk(n, s, d);
        DeliverJourney(n, p, s, d);
      }
      assert forall q :: q in n.ring && PlaceOk(n1, q) ==> PlaceOk(n', q);
    } else if !e.admitted {
      RefuseKeeps(n, n');
    } else if Overflows(n1, p, x, e.starting) && !e.memory {
      RefuseKeeps(n, n1.(dropped := n.dropped + {x.id}));
      FilledKeeps(n1.(dropped := n.dropped + {x.id}), NextHop(p, x), n1.armed);
    } else {
      ForwardLog(n1, p, x, e.starting, n1.accepted);
      forall q | q in n.ring ensures PlaceOk(n', q) {
        ForwardPlaces(n1, p, x, e.starting, q);
      }
      forall s, d | s in n.ring && d in n.ring ensures PairOk(n', s, d) {
        assert PairOk(n, s, d);
        FarNear(n, s, d);
        FarNear(n', s, d);
        TakeJourney(n, s, d);
        ForwardJourney(n1, p, x, e.starting, s, d);
        assert Far(n, s, d) + [x] + Near(n1, s, d) == Far(n, s, d) + ([x] + Near(n1, s, d));
        assert [] + Near(n1, s, d) == Near(n1, s, d) && Near(n1, s, d) + [] == Near(n1, s, d) && Far(n, s, d) + [] == Far(n, s, d);
      }
    }
  }

  /** What waits in an overflow queue is part of its journey. */
  lemma WaitingInJourney(n: Net, p: int, y: Item)
    requires Inv(n) && p in n.ring && y in n.out[p]
    ensures y.src in n.ring && y.dst in n.ring && y in Journey(n, y.src, y.dst)
  {
    assert PlaceOk(n, p);
    KeepIn(n.out[p], y.src, y.dst, {}, y);
    hide Keep;
  }

  /** A message whose number is among those waiting is itself waiting. */
  lemma WaitsItself(n: Net, p: int, s: int, d: int, x: Item)
    requires Inv(n) && p in n.ring && Ready(n, s, d) && x in Journey(n, s, d) && x.id in Ids(n.out[p])
    ensures x in n.out[p] && x in Keep(n.out[p], s, d, {}) && Waiting(n.ring.Keys, |n.accepted|, p, x)
    ensures x.src == s && x.dst == d
  {
    JourneyOk(n, s, d);
    var y :| y in n.out[p] && y.id == x.id;
    WaitingInJourney(n, p, y);
    JourneyOk(n, y.src, y.dst);
    KeepIn(n.out[p], s, d, {}, x);
    assert PlaceOk(n, p);
  }

  /** Stopping: what waited is dropped, and only that. */
  lemma StopPair(n: Net, p: int, s: int, d: int, a: seq<Item>, c: seq<Item>)
    requires Inv(n) && p in n.ring && Ready(n, s, d) && Ready(Apply(n, Stop(p)), s, d)
    requires Journey(n, s, d) == a + Keep(n.out[p], s, d, {}) + c && Journey(Apply(n, Stop(p)), s, d) == a + c
    ensures PairOk(Apply(n, Stop(p)), s, d)
  {
    var b, more := Keep(n.out[p], s, d, {}), Ids(n.out[p]);
    assert PairOk(n, s, d);
    JourneyOk(n, s, d);
    forall x | x in b ensures x.id in more {
      KeepIn(n.out[p], s, d, {}, x);
    }
    hide Keep, Journey, Inv, PlaceOk;
    var j := Journey(n, s, d);
    forall x | x in a + c ensures x.src == s && x.dst == d && x.id !in more {
      assert x in j by { InRest(a, b, c, x); }
      if x.id in more {
        WaitsItself(n, p, s, d, x);
        NotTwice(a, b, c, x);
      }
    }
    assert forall x :: x in a ==> x in a + c;
    assert forall x :: x in c ==> x in a + c;
    DropKeeps(n, Apply(n, Stop(p)), more, s, d, a, b, c);
  }

  lemma InRest(a: seq<Item>, b: seq<Item>, c: seq<Item>, x: Item)
    requires x in a + c
    ensures x in a + b + c
  {
    var i: nat :| i < |a + c| && (a + c)[i] == x;
    assert (a + b + c)[if i < |a| then i else i + |b|] == x;
  }

  lemma NotTwice(a: seq<Item>, b: seq<Item>, c: seq<Item>, x: Item)
    requires Increasing(a + b + c) && x in b
    ensures x !in a + c
  {
    var m: nat :| m < |b| && b[m] == x;
    assert (a + b + c)[|a| + m] == x;
    forall i | 0 <= i < |a + c| ensures (a + c)[i] != x {
      assert (a + b + c)[if i < |a| then i else i + |b|] == (a + c)[i];
    }
  }

  lemma StopNoPart(n: Net, p: int, s: int, d: int)
    requires Inv(n) && p in n.ring && Ready(n, s, d) && Ready(Apply(n, Stop(p)), s, d)
    requires p != s && (p != MANAGER || !Proxied(s, d))
    ensures PairOk(Apply(n, Stop(p)), s, d)
  {
    var more := Ids(n.out[p]);
    var j := Journey(n, s, d);
    assert PairOk(n, s, d);
    JourneyOk(n, s, d);
    hide Keep, Journey, Inv, PlaceOk;
    forall x | x in j ensures x.id !in more {
      if x.id in more {
        WaitsItself(n, p, s, d, x);
      }
    }
    assert j == j + [] + [] && j == j + [];
    StopSame(n, p, s, d);
    DropKeeps(n, Apply(n, Stop(p)), more, s, d, j, [], []);
  }

  lemma StopSame(n: Net, p: int, s: int, d: int)
    requires NetShape(n) && p in n.ring && Ready(n, s, d)
    requires p != s && (p != MANAGER || !Proxied(s, d))
    ensures Journey(Apply(n, Stop(p)), s, d) == Journey(n, s, d)
  {
  }

  lemma StopKeeps(n: Net, p: int)
    requires Inv(n) && Enabled(n, Stop(p))
    ensures Inv(Apply(n, Stop(p)))
  {
    var n' := Apply(n, Stop(p));
    forall q | q in n'.ring ensures PlaceOk(n', q) {
      assert PlaceOk(n, q);
    }
    forall x | x in n.out[p] ensures x.id < |n.accepted| { assert PlaceOk(n, p); }
    hide Keep;
    forall s, d | s in n'.ring && d in n'.ring ensures PairOk(n', s, d) {
      if p != s && (p != MANAGER || !Proxied(s, d)) {
        StopNoPart(n, p, s, d);
      } else {
        StopWithPart(n, p, s, d);
      }
    }
  }

  lemma StopWithPart(n: Net, p: int, s: int, d: int)
    requires Inv(n) && Enabled(n, Stop(p)) && Ready(n, s, d) && (p == s || (p == MANAGER && Proxied(s, d)))
    ensures Ready(Apply(n, Stop(p)), s, d) && PairOk(Apply(n, Stop(p)), s, d)
  {
    hide Inv, Journey, Keep, PairOk;
    var a, c := StopParts(n, p, s, d);
    StopPair(n, p, s, d, a, c);
  }

  lemma StopParts(n: Net, p: int, s: int, d: int) returns (a: seq<Item>, c: seq<Item>)
    requires p in n.ring && Ready(n, s, d) && (p == s || (p == MANAGER && Proxied(s, d)))
    ensures Ready(Apply(n, Stop(p)), s, d)
    ensures Journey(n, s, d) == a + Keep(n.out[p], s, d, {}) + c && Journey(Apply(n, Stop(p)), s, d) == a + c
  {
    KeepNone([], s, d, {});
    hide Keep;
    a, c := Keep(n.delivered, s, d, {}) + Keep(n.ring[d].items, s, d, {}), [];
    if Proxied(s, d) && p == MANAGER {
      c := Keep(n.ring[MANAGER].items, s, d, {}) + Keep(n.out[s], s, d, {});
    } else if Proxied(s, d) {
      a := a + Keep(n.out[MANAGER], s, d, {}) + Keep(n.ring[MANAGER].items, s, d, {});
    }
  }

  lemma InitialKeeps(procs: set<int>)
    requires MANAGER in procs
    ensures Inv(Initial(procs))
  {
  }

  lemma StepKeeps(n: Net, e: Event)
    requires Inv(n) && Enabled(n, e)
    ensures Inv(Apply(n, e))
  {
    match e {
      case Send(_, _, _, _, _, _, _) => SendKeeps(n, e);
      case Receive(_, _, _, _) => ReceiveKeeps(n, e);
      case Drained(p) => DrainedKeeps(n, p);
      case Retry(p) => FlushKeeps(n, p);
      case Stop(p) => StopKeeps(n, p);
    }
  }

  ghost predicate Run(n: Net, es: seq<Event>)
    decreases |es|
  {
    es == [] || (Enabled(n, es[0]) && Run(Apply(n, es[0]), es[1..]))
  }

  ghost function After(n: Net, es: seq<Event>): Net
    requires Run(n, es)
    decreases |es|
  {
    if es == [] then n else After(Apply(n, es[0]), es[1..])
  }

  /** Over whole runs, from the start: between any two processes, through the manager or not, what
      has been delivered and what is on its way is, in order, what was accepted and not dropped; and
      a process with messages waiting has its retry timer armed. */
  lemma OrderKept(procs: set<int>, es: seq<Event>, s: int, d: int)
    requires MANAGER in procs && Run(Initial(procs), es) && s in procs && d in procs
    ensures var t := After(Initial(procs), es);
            && s in t.ring && d in t.ring && Inv(t)
            && Journey(t, s, d) == Keep(t.accepted, s, d, t.dropped)
            && (t.out[s] != [] ==> t.armed[s])
  {
    InitialKeeps(procs);
    OrderStays(Initial(procs), es, s, d);
  }

  lemma {:induction false} OrderStays(n: Net, es: seq<Event>, s: int, d: int)
    requires Inv(n) && Run(n, es) && s in n.ring && d in n.ring
    ensures var t := After(n, es);
            Inv(t) && s in t.ring && d in t.ring
            && Journey(t, s, d) == Keep(t.accepted, s, d, t.dropped)
            && (t.out[s] != [] ==> t.armed[s])
    decreases |es|
  {
    hide Inv, Journey, Keep, Apply, Enabled;
    if es == [] {
      InvMeans(n, s, d);
    } else {
      StepKeeps(n, es[0]);
      SameProcs(n, es[0]);
      OrderStays(Apply(n, es[0]), es[1..], s, d);
    }
  }

  lemma InvMeans(n: Net, s: int, d: int)
    requires Inv(n) && s in n.ring && d in n.ring
    ensures NetShape(n) && Journey(n, s, d) == Keep(n.accepted, s, d, n.dropped) && (n.out[s] != [] ==> n.armed[s])
  {
    assert PairOk(n, s, d) && PlaceOk(n, s);
  }

  lemma SameProcs(n: Net, e: Event)
    requires Enabled(n, e)
    ensures Apply(n, e).ring.Keys == n.ring.Keys
  {
    if e.Retry? {
      FlushProcs(n, e.at);
    }
  }

  /** What retrying does: it sends as many of the waiting messages as the rings take. */
  lemma {:induction false} FlushSends(n: Net, at: int) returns (k: nat)
    requires NetShape(n) && at in n.out && forall x :: x in n.out[at] ==> NextHop(at, x) in n.ring
    ensures SentFirst(n, Flush(n, at), at, k)
    decreases if at in n.out then |n.out[at]| else 0
  {
    hide NextHop;
    k := 0;
    if n.out[at] != [] {
      var x := n.out[at][0];
      var to := NextHop(at, x);
      if Accepts(n.ring[to]) {
        var n1 := Queued(Popped(n, at), to, x);
        var j := FlushSends(n1, at);
        k := j + 1;
        SentOneMore(n, n1, Flush(n, at), at, j);
      }
    }
  }

  lemma FlushSendsAll(n: Net, at: int)
    requires NetShape(n) && at in n.out && forall x :: x in n.out[at] ==> NextHop(at, x) in n.ring
    ensures SentAll(n, Flush(n, at), at)
  {
    hide Flush, SentFirst;
    var k := FlushSends(n, at);
  }

  lemma SentOneMore(n: Net, n1: Net, n': Net, at: int, j: nat)
    requires NetShape(n) && at in n.out && n.out[at] != [] && NextHop(at, n.out[at][0]) in n.ring
    requires Accepts(n.ring[NextHop(at, n.out[at][0])]) && n1 == Queued(Popped(n, at), NextHop(at, n.out[at][0]), n.out[at][0])
    requires SentFirst(n1, n', at, j)
    ensures SentFirst(n, n', at, j + 1)
  {
    hide NextHop, RingsGot;
    var xs := n.out[at];
    assert n1.out[at] == xs[1..];
    RingsGotSome(n1.ring, n'.ring, xs[1..], at, j);
    assert xs[1..][j..] == xs[j + 1..];
    RingsOneMore(n.ring, n1.ring, n'.ring, xs, at, j);
    assert n'.out == n.out[at := xs[j + 1..]];
  }

  lemma RingsGotSome(ring: map<int, Queue>, ring': map<int, Queue>, xs: seq<Item>, at: int, k: nat)
    requires RingsGot(ring, ring', xs, at, k)
    ensures k <= |xs|
  {
  }

  lemma RingsOneMore(ring: map<int, Queue>, ring1: map<int, Queue>, ring': map<int, Queue>, xs: seq<Item>, at: int, j: nat)
    requires xs != [] && NextHop(at, xs[0]) in ring && Accepts(ring[NextHop(at, xs[0])])
    requires ring1 == ring[NextHop(at, xs[0]) := Put(ring[NextHop(at, xs[0])], xs[0])]
    requires RingsGot(ring1, ring', xs[1..], at, j)
    ensures RingsGot(ring, ring', xs, at, j + 1)
  {
    hide NextHop, Bound, Got, Refused;
    assert j < |xs| - 1 ==> xs[1..][j] == xs[j + 1];
    forall p | p in ring
      ensures Got(ring[p], ring'[p], Bound(xs[..j + 1], at, p)) && ring1[p].full == ring[p].full
    {
      assert xs[..j + 1] == [xs[0]] + xs[1..][..j];
      GotOneMore(ring[p], ring1[p], ring'[p], at, p, xs[0], xs[1..][..j]);
    }
    if j + 1 < |xs| {
      var next := NextHop(at, xs[j + 1]);
      RefusedBefore(ring[next], ring1[next], ring'[next]);
    }
  }

  lemma RefusedBefore(q: Queue, q1: Queue, q': Queue)
    requires Refused(q1, q') && q1.full == q.full
    ensures Refused(q, q')
  {
  }

  lemma GotOneMore(q: Queue, q1: Queue, q': Queue, at: int, p: int, x: Item, xs: seq<Item>)
    requires if NextHop(at, x) == p then Accepts(q) && q1 == Put(q, x) else q1 == q
    requires Got(q1, q', Bound(xs, at, p))
    ensures Got(q, q', Bound([x] + xs, at, p))
  {
    hide NextHop;
    assert ([x] + xs)[1..] == xs;
    assert Bound([x] + xs, at, p) == (if NextHop(at, x) == p then [x] else []) + Bound(xs, at, p);
  }

  lemma {:induction false} FlushProcs(n: Net, at: int)
    requires NetShape(n) && at in n.out && forall x :: x in n.out[at] ==> NextHop(at, x) in n.ring
    ensures Flush(n, at).ring.Keys == n.ring.Keys
    decreases if at in n.out then |n.out[at]| else 0
  {
    if n.out[at] != [] {
      var x := n.out[at][0];
      if Accepts(n.ring[NextHop(at, x)]) {
        FlushProcs(Queued(Popped(n, at), NextHop(at, x), x), at);
      }
    }
  }
}
