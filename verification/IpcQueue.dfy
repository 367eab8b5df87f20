/** Rings as queues, the processes' overflow queues, and the way through the manager; one
    send, receive, retry or stop at a time. */
module IpcQueue {
  import opened IpcSlots

  const MASTER := -2
  const MANAGER := -1
  const WORKER := 0
  const CMD_PROXY := 11
  const CMD_PROXIED := 12

  /** A message between two processes.  Its number, counted when it is accepted, is history. */
  datatype Item = Item(src: int, dst: int, code: nat, ptr: nat, id: nat)

  /** Masters and workers do not talk directly. */
  predicate Proxied(src: int, dst: int): (b: bool)
    ensures b <==> (src == -2 && dst >= 0) || (src >= 0 && dst == -2)
  {
    (src == MASTER && dst >= WORKER) || (src >= WORKER && dst == MASTER)
  }

  /** Where a process sends the message next. */
  function NextHop(at: int, x: Item): (to: int)
    ensures to != x.dst ==> to == -1 && at == x.src
  {
    if at == x.src && Proxied(x.src, x.dst) then MANAGER else x.dst
  }

  /** The code that travels with it. */
  function WireCode(at: int, x: Item): nat {
    if !Proxied(x.src, x.dst) then x.code else if at == x.src then CMD_PROXY else CMD_PROXIED
  }

  /** What a ring is to its users: the messages not read yet, and whether it turns senders away. */
  datatype Queue = Queue(items: seq<Item>, full: bool)

  predicate Accepts(q: Queue) { !q.full && |q.items| < SLOTS }

  /** A send into a ring: turned away if the ring is marked full; if it has no room it gets
      marked; else queued. */
  function Put(q: Queue, x: Item): Queue {
    if q.full then q
    else if |q.items| >= SLOTS then q.(full := true)
    else q.(items := q.items + [x])
  }

  /** The rings by reader, the overflow queues and retry timers by sender; and as history the
      messages accepted, delivered, and given up. */
  datatype Net = Net(
    ring: map<int, Queue>, out: map<int, seq<Item>>, armed: map<int, bool>,
    accepted: seq<Item>, delivered: seq<Item>, dropped: set<nat>)

  predicate NetShape(n: Net) {
    n.ring.Keys == n.out.Keys == n.armed.Keys && MANAGER in n.ring
  }

  /** Sends an item on from a process: behind the ones waiting if there are any or if the
      receiver is still starting, and else into the ring, or the overflow queue if that fails. */
  function Forward(n: Net, at: int, x: Item, starting: bool): Net
    requires at in n.out && at in n.armed && NextHop(at, x) in n.ring
  {
    var to := NextHop(at, x);
    if n.out[at] != [] || starting then Appended(n, at, x)
    else if Accepts(n.ring[to]) then Queued(n, to, x)
    else Appended(Filled(n, to), at, x)
  }

  /** The two outcomes of trying a ring: the message is in, or the ring is marked full. */
  function Queued(n: Net, to: int, x: Item): Net
    requires to in n.ring
  {
    n.(ring := n.ring[to := n.ring[to].(items := n.ring[to].items + [x])])
  }

  function Filled(n: Net, to: int): Net
    requires to in n.ring
  {
    n.(ring := n.ring[to := n.ring[to].(full := true)])
  }

  function Appended(n: Net, at: int, x: Item): Net
    requires at in n.out
  {
    n.(out := n.out[at := n.out[at] + [x]], armed := n.armed[at := true])
  }

  /** Does forwarding need a place in the overflow queue? */
  predicate Overflows(n: Net, at: int, x: Item, starting: bool)
    requires at in n.out && NextHop(at, x) in n.ring
  {
    n.out[at] != [] || starting || !Accepts(n.ring[NextHop(at, x)])
  }

  /** The retry timer: waiting messages go out in order until one fails. */
  function Flush(n: Net, at: int): Net
    requires NetShape(n) && at in n.out && forall x :: x in n.out[at] ==> NextHop(at, x) in n.ring
    decreases if at in n.out then |n.out[at]| else 0
  {
    if n.out[at] == [] then n
    else
      var x := n.out[at][0];
      var to := NextHop(at, x);
      if Accepts(n.ring[to]) then Flush(Queued(Popped(n, at), to, x), at)
      else Filled(n, to).(armed := n.armed[at := true])
  }

  /** Those of some waiting messages that go to p next. */
  function Bound(xs: seq<Item>, at: int, p: int): seq<Item> {
    if xs == [] then [] else (if NextHop(at, xs[0]) == p then [xs[0]] else []) + Bound(xs[1..], at, p)
  }

  /** A ring got these messages, for which it had room. */
  predicate Got(q: Queue, q': Queue, sent: seq<Item>) {
    q'.items == q.items + sent && (sent != [] ==> !q.full && |q'.items| <= SLOTS)
  }

  /** The ring did not take another message and is marked full now. */
  predicate Refused(q: Queue, q': Queue) { q'.full && (q.full || |q'.items| >= SLOTS) }

  /** The first k of some waiting messages have gone, in order, into rings that had room for them; the
      ring of the next one, if there is one, did not take it. */
  ghost predicate RingsGot(ring: map<int, Queue>, ring': map<int, Queue>, xs: seq<Item>, at: int, k: nat) {
    && ring'.Keys == ring.Keys && k <= |xs|
    && (forall p :: p in ring ==> Got(ring[p], ring'[p], Bound(xs[..k], at, p)))
    && (k < |xs| ==> NextHop(at, xs[k]) in ring && Refused(ring[NextHop(at, xs[k])], ring'[NextHop(at, xs[k])]))
    && (forall p :: p in ring && (k < |xs| ==> p != NextHop(at, xs[k])) ==> ring'[p].full == ring[p].full)
  }

  /** From n to n' a process has sent the first k messages that waited; if some are left, the timer is
      armed. */
  ghost predicate SentFirst(n: Net, n': Net, at: int, k: nat)
    requires NetShape(n) && at in n.out
  {
    && RingsGot(n.ring, n'.ring, n.out[at], at, k)
    && n'.out == n.out[at := n.out[at][k..]]
    && n'.armed == (if k < |n.out[at]| then n.armed[at := true] else n.armed)
    && n'.accepted == n.accepted && n'.delivered == n.delivered && n'.dropped == n.dropped
  }

  /** As many messages as the rings took have been sent. */
  ghost predicate SentAll(n: Net, n': Net, at: int)
    requires NetShape(n) && at in n.out
  {
    exists k :: SentFirst(n, n', at, k)
  }

  function Popped(n: Net, at: int): Net
    requires at in n.out && n.out[at] != []
  {
    n.(out := n.out[at := n.out[at][1..]])
  }

  function Taken(n: Net, p: int): Net
    requires p in n.ring && n.ring[p].items != []
  {
    n.(ring := n.ring[p := n.ring[p].(items := n.ring[p].items[1..])])
  }

  function Ids(xs: seq<Item>): set<nat> { set x | x in xs :: x.id }

  datatype Event =
    /** A process sends.  Admitted: the runstates allow it and a proxied message could be
        allocated.  Memory: there is some for the overflow queue. */
    | Send(src: int, dst: int, code: nat, ptr: nat, admitted: bool, starting: bool, memory: bool)
    /** The reader takes one message and handles it; the manager sends on what it proxies. */
    | Receive(at: int, admitted: bool, starting: bool, memory: bool)
    /** The reader finds its ring empty. */
    | Drained(at: int)
    | Retry(at: int)
    | Stop(at: int)

  predicate Enabled(n: Net, e: Event) {
    NetShape(n) &&
    match e
    case Send(s, d, _, _, _, _, _) => s in n.ring && d in n.ring
    case Receive(p, _, _, _) =>
      p in n.ring && n.ring[p].items != [] && n.ring[p].items[0].dst in n.ring
    case Drained(p) => p in n.ring && n.ring[p].items == []
    case Retry(p) => p in n.ring && n.armed[p] && forall x :: x in n.out[p] ==> NextHop(p, x) in n.ring
    case Stop(p) => p in n.ring
  }

  function Apply(n: Net, e: Event): Net
    requires Enabled(n, e)
  {
    match e
    case Send(s, d, code, ptr, admitted, starting, memory) =>
      var x := Item(s, d, code, ptr, |n.accepted|);
      if !admitted then n
      else if Overflows(n, s, x, starting) && !memory then Marked(n, s, x, starting)
      else Forward(n, s, x, starting).(accepted := n.accepted + [x])
    case Receive(p, admitted, starting, memory) =>
      var x := n.ring[p].items[0];
      var n' := Taken(n, p);
      if x.dst == p then n'.(delivered := n.delivered + [x])
      else if !admitted then n'.(dropped := n.dropped + {x.id})
      else if Overflows(n', p, x, starting) && !memory then Marked(n', p, x, starting).(dropped := n.dropped + {x.id})
      else Forward(n', p, x, starting)
    case Drained(p) =>
      n.(ring := n.ring[p := n.ring[p].(full := false)])
    case Retry(p) => Flush(n, p)
    case Stop(p) =>
      n.(out := n.out[p := []], armed := n.armed[p := false], dropped := n.dropped + Ids(n.out[p]))
  }

  /** A send that fails altogether may still have marked the ring full. */
  function Marked(n: Net, at: int, x: Item, starting: bool): Net
    requires at in n.out && NextHop(at, x) in n.ring
  {
    var to := NextHop(at, x);
    if n.out[at] != [] || starting then n
    else Filled(n, to)
  }

  function Initial(procs: set<int>): Net {
    Net(map p | p in procs :: Queue([], false), map p | p in procs :: [], map p | p in procs :: false, [], [], {})
  }

  /** The messages from s to d, without the dropped ones. */
  function Keep(xs: seq<Item>, s: int, d: int, dropped: set<nat>): seq<Item> {
    if xs == [] then []
    else
      var rest := Keep(xs[..|xs| - 1], s, d, dropped);
      var x := xs[|xs| - 1];
      if x.src == s && x.dst == d && x.id !in dropped then rest + [x] else rest
  }

  /** The messages from s to d, from the first delivered to the last accepted, wherever they
      are: delivered, in the receiver's ring, waiting to get there, and if they go through the
      manager in its ring or waiting to get there. */
  function Journey(n: Net, s: int, d: int): seq<Item>
    requires NetShape(n) && s in n.ring && d in n.ring
  {
    var far := Keep(n.delivered, s, d, {}) + Keep(n.ring[d].items, s, d, {});
    if Proxied(s, d)
    then far + Keep(n.out[MANAGER], s, d, {}) + Keep(n.ring[MANAGER].items, s, d, {}) + Keep(n.out[s], s, d, {})
    else far + Keep(n.out[s], s, d, {})
  }

  /** Nothing lost, duplicated or reordered between any two processes. */
  ghost predicate PairOk(n: Net, s: int, d: int)
    requires NetShape(n) && s in n.ring && d in n.ring
  {
    Journey(n, s, d) == Keep(n.accepted, s, d, n.dropped)
  }

  predicate InRing(procs: set<int>, accepted: nat, p: int, x: Item) {
    x.id < accepted && x.src in procs && x.dst in procs && (x.dst == p || (p == MANAGER && Proxied(x.src, x.dst)))
  }

  predicate Waiting(procs: set<int>, accepted: nat, p: int, x: Item) {
    x.id < accepted && x.src in procs && x.dst in procs && (x.src == p || (p == MANAGER && Proxied(x.src, x.dst)))
  }

  ghost predicate PlaceOk(n: Net, p: int)
    requires NetShape(n) && p in n.ring
  {
    && (forall x :: x in n.ring[p].items ==> InRing(n.ring.Keys, |n.accepted|, p, x))
    && (forall x :: x in n.out[p] ==> Waiting(n.ring.Keys, |n.accepted|, p, x))
    && |n.ring[p].items| <= SLOTS
    && (n.out[p] != [] ==> n.armed[p])
  }

  ghost predicate Inv(n: Net) {
    && NetShape(n)
    && (forall i :: 0 <= i < |n.accepted| ==> n.accepted[i].id == i)
    && (forall id :: id in n.dropped ==> id < |n.accepted|)
    && (forall p :: p in n.ring ==> PlaceOk(n, p))
    && (forall s, d :: s in n.ring && d in n.ring ==> PairOk(n, s, d))
  }
}
