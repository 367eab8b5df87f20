/** The page records of the slab allocator and the circular doubly linked lists
    threaded through them.  All records live in one index space: first the pages,
    then the head of the free list, then one list head per size class. */
module PageLists {

  /** The two tag bits of a `prev` word. */
  datatype Kind = Whole | Big | Exact | Small

  const NULL := -1

  /** `next` and the pointer part of `prev` are record indices or NULL. */
  datatype Node = Node(slab: nat, next: int, prev: int, kind: Kind)

  const ZEROED := Node(0, NULL, NULL, Whole)

  /** Position k of the circle formed by a head and its list. */
  function At(head: nat, order: seq<nat>, k: int): nat {
    if 0 <= k < |order| then order[k] else head
  }

  function Succ(head: nat, order: seq<nat>, k: int): nat { At(head, order, k + 1) }

  function Pred(head: nat, order: seq<nat>, k: int): nat { At(head, order, k - 1) }

  predicate Distinct(order: seq<nat>) {
    forall j, k :: 0 <= j < k < |order| ==> order[j] != order[k]
  }

  /** The records reached from `head` by `next` are `order`, and `prev` goes back.
      Nothing is said of the head's own `prev`, which no operation reads. */
  ghost predicate Linked(nodes: seq<Node>, head: nat, order: seq<nat>) {
    && head < |nodes|
    && (forall k :: 0 <= k < |order| ==> order[k] < |nodes| && order[k] != head)
    && Distinct(order)
    && (forall k {:trigger Succ(head, order, k)} :: -1 <= k < |order|
          ==> nodes[At(head, order, k)].next == Succ(head, order, k))
    && (forall k {:trigger Pred(head, order, k)} :: 0 <= k < |order|
          ==> nodes[order[k]].prev == Pred(head, order, k))
  }

  /** The two neighbours of a record are linked to each other. */
  function Unlinked(nodes: seq<Node>, p: nat): seq<Node>
    requires p < |nodes| && 0 <= nodes[p].prev < |nodes| && 0 <= nodes[p].next < |nodes|
  {
    var m := nodes[nodes[p].prev := nodes[nodes[p].prev].(next := nodes[p].next)];
    m[nodes[p].next := m[nodes[p].next].(prev := nodes[p].prev, kind := nodes[p].kind)]
  }

  /** q takes the place of p in p's list. */
  function Relinked(nodes: seq<Node>, p: nat, q: nat): seq<Node>
    requires p < |nodes| && q < |nodes| && 0 <= nodes[p].prev < |nodes| && 0 <= nodes[p].next < |nodes|
  {
    var m := nodes[q := nodes[q].(next := nodes[p].next, prev := nodes[p].prev, kind := nodes[p].kind)];
    var m := m[nodes[p].prev := m[nodes[p].prev].(next := q)];
    m[nodes[p].next := m[nodes[p].next].(prev := q, kind := Whole)]
  }

  /** p becomes the first record of the list of head. */
  function Pushed(nodes: seq<Node>, head: nat, p: nat, kind: Kind): seq<Node>
    requires p < |nodes| && head < |nodes| && 0 <= nodes[head].next < |nodes|
  {
    var first := nodes[head].next;
    var m := nodes[p := nodes[p].(next := first, prev := head, kind := kind)];
    var m := m[first := m[first].(prev := p, kind := kind)];
    m[head := m[head].(next := p)]
  }

  function Without(order: seq<nat>, k: nat): seq<nat>
    requires k < |order|
  {
    order[..k] + order[k + 1..]
  }

  /** Every link of a listed record stays inside the list. */
  lemma LinkedAt(nodes: seq<Node>, head: nat, order: seq<nat>, k: nat)
    requires Linked(nodes, head, order) && k < |order|
    ensures nodes[order[k]].next == At(head, order, k + 1) < |nodes|
    ensures nodes[order[k]].prev == At(head, order, k - 1) < |nodes|
    ensures nodes[At(head, order, k - 1)].next == order[k]
  {
    assert nodes[order[k]].next == Succ(head, order, k);
    assert nodes[order[k]].prev == Pred(head, order, k);
    assert nodes[At(head, order, k - 1)].next == Succ(head, order, k - 1);
  }

  /** Two positions of the circle hold the same record only if they are the same. */
  lemma AtInjective(nodes: seq<Node>, head: nat, order: seq<nat>, j: int, k: int)
    requires Linked(nodes, head, order) && -1 <= j < |order| && -1 <= k < |order|
    requires At(head, order, j) == At(head, order, k)
    ensures j == k
  {
  }

  lemma WithoutDistinct(order: seq<nat>, k: nat)
    requires Distinct(order) && k < |order|
    ensures Distinct(Without(order, k))
    ensures order[k] !in Without(order, k)
    ensures forall x :: x in Without(order, k) <==> x in order && x != order[k]
  {
    var rest := Without(order, k);
    forall i | 0 <= i < |rest| ensures rest[i] == order[if i < k then i else i + 1] {
    }
    forall x | x in order && x != order[k] ensures x in rest {
      var i :| 0 <= i < |order| && order[i] == x;
      assert rest[if i < k then i else i - 1] == x;
    }
  }

  lemma UpdateMembers(order: seq<nat>, k: nat, q: nat)
    requires Distinct(order) && k < |order|
    ensures forall x :: x in order[k := q] <==> x == q || (x in order && x != order[k])
  {
    var order' := order[k := q];
    assert order'[k] == q;
    forall x | x in order && x != order[k] ensures x in order' {
      var i :| 0 <= i < |order| && order[i] == x;
      assert order'[i] == x;
    }
  }

  /** The next link at each position of the shortened list. */
  lemma UnlinkNext(nodes: seq<Node>, head: nat, order: seq<nat>, k: nat, j: int)
    requires Linked(nodes, head, order) && k < |order| && -1 <= j < |order| - 1
    ensures var p := order[k]; var rest := Without(order, k);
            0 <= nodes[p].prev < |nodes| && 0 <= nodes[p].next < |nodes| &&
            Unlinked(nodes, p)[At(head, rest, j)].next == Succ(head, rest, j)
  {
    LinkedAt(nodes, head, order, k);
    var j' := if j < k then j else j + 1;
    assert nodes[At(head, order, j')].next == Succ(head, order, j');
    assert At(head, Without(order, k), j) == At(head, order, j');
    if j' != k - 1 && At(head, order, j') == At(head, order, k - 1) {
      AtInjective(nodes, head, order, j', k - 1);
    }
  }

  lemma UnlinkPrev(nodes: seq<Node>, head: nat, order: seq<nat>, k: nat, j: nat)
    requires Linked(nodes, head, order) && k < |order| && j < |order| - 1
    ensures var p := order[k]; var rest := Without(order, k);
            0 <= nodes[p].prev < |nodes| && 0 <= nodes[p].next < |nodes| &&
            Unlinked(nodes, p)[rest[j]].prev == Pred(head, rest, j)
  {
    LinkedAt(nodes, head, order, k);
    var j' := if j < k then j else j + 1;
    assert nodes[order[j']].prev == Pred(head, order, j');
    if j' != k + 1 && At(head, order, j') == At(head, order, k + 1) {
      AtInjective(nodes, head, order, j', k + 1);
    }
  }

  lemma UnlinkKeeps(nodes: seq<Node>, head: nat, order: seq<nat>, k: nat)
    requires Linked(nodes, head, order) && k < |order|
    ensures var p := order[k];
            0 <= nodes[p].prev < |nodes| && 0 <= nodes[p].next < |nodes| &&
            Linked(Unlinked(nodes, p), head, Without(order, k))
  {
    LinkedAt(nodes, head, order, k);
    var p, rest := order[k], Without(order, k);
    var nodes' := Unlinked(nodes, p);
    forall j {:trigger Succ(head, rest, j)} | -1 <= j < |rest|
      ensures nodes'[At(head, rest, j)].next == Succ(head, rest, j)
    {
      UnlinkNext(nodes, head, order, k, j);
    }
    forall j {:trigger Pred(head, rest, j)} | 0 <= j < |rest| ensures nodes'[rest[j]].prev == Pred(head, rest, j) {
      UnlinkPrev(nodes, head, order, k, j);
    }
    WithoutDistinct(order, k);
  }

  lemma RelinkNext(nodes: seq<Node>, head: nat, order: seq<nat>, k: nat, q: nat, j: int)
    requires Linked(nodes, head, order) && k < |order| && -1 <= j < |order|
    requires q < |nodes| && q != head && q !in order
    ensures var p := order[k]; var order' := order[k := q];
            0 <= nodes[p].prev < |nodes| && 0 <= nodes[p].next < |nodes| &&
            Relinked(nodes, p, q)[At(head, order', j)].next == Succ(head, order', j)
  {
    LinkedAt(nodes, head, order, k);
    assert nodes[At(head, order, j)].next == Succ(head, order, j);
    if j != k - 1 && At(head, order, j) == At(head, order, k - 1) {
      AtInjective(nodes, head, order, j, k - 1);
    }
  }

  lemma RelinkPrev(nodes: seq<Node>, head: nat, order: seq<nat>, k: nat, q: nat, j: nat)
    requires Linked(nodes, head, order) && k < |order| && j < |order|
    requires q < |nodes| && q != head && q !in order
    ensures var p := order[k]; var order' := order[k := q];
            0 <= nodes[p].prev < |nodes| && 0 <= nodes[p].next < |nodes| &&
            Relinked(nodes, p, q)[order'[j]].prev == Pred(head, order', j)
  {
    LinkedAt(nodes, head, order, k);
    assert nodes[order[j]].prev == Pred(head, order, j);
    if j != k + 1 && At(head, order, j) == At(head, order, k + 1) {
      AtInjective(nodes, head, order, j, k + 1);
    }
  }

  lemma RelinkKeeps(nodes: seq<Node>, head: nat, order: seq<nat>, k: nat, q: nat)
    requires Linked(nodes, head, order) && k < |order|
    requires q < |nodes| && q != head && q !in order
    ensures var p := order[k];
            0 <= nodes[p].prev < |nodes| && 0 <= nodes[p].next < |nodes| &&
            Linked(Relinked(nodes, p, q), head, order[k := q])
  {
    LinkedAt(nodes, head, order, k);
    var p, order' := order[k], order[k := q];
    var nodes' := Relinked(nodes, p, q);
    forall j {:trigger Succ(head, order', j)} | -1 <= j < |order|
      ensures nodes'[At(head, order', j)].next == Succ(head, order', j)
    {
      RelinkNext(nodes, head, order, k, q, j);
    }
    forall j {:trigger Pred(head, order', j)} | 0 <= j < |order|
      ensures nodes'[order'[j]].prev == Pred(head, order', j)
    {
      RelinkPrev(nodes, head, order, k, q, j);
    }
  }

  lemma PushKeeps(nodes: seq<Node>, head: nat, order: seq<nat>, p: nat, kind: Kind)
    requires Linked(nodes, head, order)
    requires p < |nodes| && p != head && p !in order
    ensures nodes[head].next == At(head, order, 0) < |nodes|
    ensures Linked(Pushed(nodes, head, p, kind), head, [p] + order)
  {
    assert nodes[At(head, order, -1)].next == Succ(head, order, -1);
    var order' := [p] + order;
    var nodes' := Pushed(nodes, head, p, kind);
    forall j {:trigger Succ(head, order', j)} | -1 <= j < |order'|
      ensures nodes'[At(head, order', j)].next == Succ(head, order', j)
    {
      PushNext(nodes, head, order, p, kind, j);
    }
    forall j {:trigger Pred(head, order', j)} | 0 <= j < |order'|
      ensures nodes'[order'[j]].prev == Pred(head, order', j)
    {
      PushPrev(nodes, head, order, p, kind, j);
    }
    PushDistinct(order, p);
  }

  lemma PushDistinct(order: seq<nat>, p: nat)
    requires Distinct(order) && p !in order
    ensures Distinct([p] + order)
  {
  }

  lemma PushNext(nodes: seq<Node>, head: nat, order: seq<nat>, p: nat, kind: Kind, j: int)
    requires Linked(nodes, head, order) && -1 <= j <= |order|
    requires p < |nodes| && p != head && p !in order
    ensures nodes[head].next == At(head, order, 0) < |nodes|
    ensures Pushed(nodes, head, p, kind)[At(head, [p] + order, j)].next == Succ(head, [p] + order, j)
  {
    assert nodes[At(head, order, -1)].next == Succ(head, order, -1);
    if j >= 1 {
      assert nodes[At(head, order, j - 1)].next == Succ(head, order, j - 1);
    }
  }

  lemma PushPrev(nodes: seq<Node>, head: nat, order: seq<nat>, p: nat, kind: Kind, j: nat)
    requires Linked(nodes, head, order) && j <= |order|
    requires p < |nodes| && p != head && p !in order
    ensures nodes[head].next == At(head, order, 0) < |nodes|
    ensures Pushed(nodes, head, p, kind)[([p] + order)[j]].prev == Pred(head, [p] + order, j)
  {
    assert nodes[At(head, order, -1)].next == Succ(head, order, -1);
    if j >= 2 {
      assert nodes[order[j - 1]].prev == Pred(head, order, j - 1);
    }
  }

  /** A list is untouched by writes to other records. */
  lemma LinkedFrame(nodes: seq<Node>, nodes': seq<Node>, head: nat, order: seq<nat>)
    requires Linked(nodes, head, order) && |nodes'| == |nodes|
    requires nodes'[head].next == nodes[head].next
    requires forall k :: 0 <= k < |order| ==>
      nodes'[order[k]].next == nodes[order[k]].next && nodes'[order[k]].prev == nodes[order[k]].prev
    ensures Linked(nodes', head, order)
  {
  }

  /** Writing a record that is not on the list keeps it. */
  lemma WriteKeeps(nodes: seq<Node>, head: nat, order: seq<nat>, t: nat, node: Node)
    requires Linked(nodes, head, order) && t < |nodes| && t != head && t !in order
    ensures Linked(nodes[t := node], head, order)
  {
    LinkedFrame(nodes, nodes[t := node], head, order);
  }

  lemma RewrittenUnlinkKeeps(nodes: seq<Node>, head: nat, order: seq<nat>, k: nat, slab: nat)
    requires Linked(nodes, head, order) && k < |order|
    ensures var p := order[k]; var m := nodes[p := nodes[p].(slab := slab)];
            0 <= m[p].prev < |nodes| && 0 <= m[p].next < |nodes| &&
            Linked(Unlinked(m, p), head, Without(order, k))
  {
    var m := nodes[order[k] := nodes[order[k]].(slab := slab)];
    LinkedFrame(nodes, m, head, order);
    UnlinkKeeps(m, head, order, k);
  }

  /** Two unlisted records are prepared, then the second one replaces a listed record. */
  lemma PreparedRelinkKeeps(nodes: seq<Node>, head: nat, order: seq<nat>, k: nat, t: nat, q: nat, slab: nat)
    requires Linked(nodes, head, order) && k < |order|
    requires t < |nodes| && t != head && t !in order
    requires q < |nodes| && q != head && q !in order
    ensures var p := order[k];
            var m := nodes[t := nodes[t].(prev := q, kind := Whole)];
            var m := m[q := m[q].(slab := slab)];
            0 <= m[p].prev < |nodes| && 0 <= m[p].next < |nodes| &&
            Linked(Relinked(m, p, q), head, order[k := q])
  {
    var m := nodes[t := nodes[t].(prev := q, kind := Whole)];
    WriteKeeps(nodes, head, order, t, m[t]);
    WriteKeeps(m, head, order, q, m[q].(slab := slab));
    RelinkKeeps(m[q := m[q].(slab := slab)], head, order, k, q);
  }
}
