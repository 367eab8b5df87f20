/** How the page invariant survives the block layer: pages entering and leaving the lists of
    the size classes, and changes to the blocks of one page. */
module PageClasses {
  import opened PageLists
  import opened PageRuns

  // ---- the blocks of one page change

  /** Page p keeps its links; its word and its handed-out blocks change. */
  lemma RewriteKeepsCore(nodes: seq<Node>, v: View, p: nat, slab: nat, busy: set<nat>)
    requires Core(nodes, v, NULL) && p < |v.role| && v.role[p].Chunked?
    ensures Core(nodes[p := nodes[p].(slab := slab)], v.(role := v.role[p := v.role[p].(busy := busy)]), NULL)
  {
    var nodes', role, role' := nodes[p := nodes[p].(slab := slab)], v.role, v.role[p := v.role[p].(busy := busy)];
    RoleChangeRolesOk(role, p, role'[p]);
    forall i | 0 <= i < |role| ensures NodeOk(nodes', role', i, NULL) {
      assert NodeOk(nodes, role, i, NULL) && RoleOk(role, i);
    }
    RewriteFreeList(nodes, v, p, slab, busy);
    hide Linked, FreeListOk, NodesOk, RolesOk;
    forall t | 0 <= t < |v.slots| ensures SlotOk(nodes', role', t, v.slots[t]) {
      assert SlotOk(nodes, role, t, v.slots[t]);
      LinkedFrame(nodes, nodes', |role| + 1 + t, v.slots[t]);
    }
    forall i | 0 <= i < |role| ensures ChunkedOk(nodes', role', v.slots, v.exact, i) {
      assert ChunkedOk(nodes, role, v.slots, v.exact, i);
    }
  }

  lemma RewriteFreeList(nodes: seq<Node>, v: View, p: nat, slab: nat, busy: set<nat>)
    requires Core(nodes, v, NULL) && p < |v.role| && v.role[p].Chunked?
    ensures FreeListOk(nodes[p := nodes[p].(slab := slab)], v.role[p := v.role[p].(busy := busy)], v.order, NULL)
  {
    var role := v.role;
    forall i: nat ensures i in v.order <==> i < |role| && role[p := role[p].(busy := busy)][i].Free? {
      assert i in v.order <==> i < |role| && role[i].Free?;
    }
    LinkedFrame(nodes, nodes[p := nodes[p].(slab := slab)], |role|, v.order);
  }

  // ---- a full page leaves its size class

  function Unlisted(nodes: seq<Node>, p: nat): (r: seq<Node>)
    requires p < |nodes| && 0 <= nodes[p].prev < |nodes| && 0 <= nodes[p].next < |nodes|
    ensures |r| == |nodes|
  {
    var m := Unlinked(nodes, p);
    m[p := nodes[p].(next := NULL, prev := NULL)]
  }

  function UnlistedView(v: View, s: nat, k: nat): View
    requires s < |v.slots| && k < |v.slots[s]|
  {
    v.(slots := v.slots[s := Without(v.slots[s], k)])
  }

  lemma UnlistedSlots(nodes: seq<Node>, v: View, s: nat, k: nat)
    requires Listed(nodes, v, s, k)
    ensures var p := v.slots[s][k];
            && p < |v.role| && 0 <= nodes[p].next < |nodes| && 0 <= nodes[p].prev < |nodes|
            && SlotListsOk(Unlisted(nodes, p), v.role, UnlistedView(v, s, k).slots, v.exact)
  {
    SlotLinks(nodes, v, s, k);
    UnslottedSlots(nodes, v, s, k);
    WithoutMembers(nodes, v, s, k);
    var p, slots', role := v.slots[s][k], UnlistedView(v, s, k).slots, v.role;
    var m, role0, nodes' := Unslotted(nodes, p), role[p := Free(1)], Unlisted(nodes, p);
    assert forall i :: 0 <= i < |nodes| && i != p ==> nodes'[i] == m[i];
    forall t | 0 <= t < |slots'| ensures SlotOk(nodes', role, t, slots'[t]) {
      assert SlotOk(m, role0, t, slots'[t]);
      SlotOkFrame(m, role0, t, slots'[t], nodes', role);
    }
    forall i | 0 <= i < |role| ensures ChunkedOk(nodes', role, slots', v.exact, i) {
      assert ChunkedOk(nodes, role, v.slots, v.exact, i);
      assert ChunkedOk(m, role0, slots', v.exact, i);
    }
  }

  /** Unlisting a page keeps the page invariant. */
  lemma UnlistKeepsCore(nodes: seq<Node>, v: View, s: nat, k: nat)
    requires Listed(nodes, v, s, k)
    ensures var p := v.slots[s][k];
            && p < |v.role| && 0 <= nodes[p].next < |nodes| && 0 <= nodes[p].prev < |nodes|
            && Core(Unlisted(nodes, p), UnlistedView(v, s, k), NULL)
  {
    SlotLinks(nodes, v, s, k);
    UnlistedSlots(nodes, v, s, k);
    DetachChunked(nodes, v, s, k);
    var p, role := v.slots[s][k], v.role;
    var m, role0, nodes' := Unslotted(nodes, p), role[p := Free(1)], Unlisted(nodes, p);
    forall i | 0 <= i < |role| ensures NodeOk(nodes', role, i, NULL) {
      assert NodeOk(m, role0, i, p) && RoleOk(role, i);
    }
    assert p !in v.order;
    LinkedFrame(m, nodes', |role|, v.order);
  }

  // ---- a page with a free block again goes to the front of its size class

  ghost predicate Relistable(nodes: seq<Node>, v: View, p: nat) {
    && Core(nodes, v, NULL)
    && p < |v.role| && v.role[p].Chunked?
    && 3 <= v.role[p].shift < |v.slots| + 3
    && p !in v.slots[v.role[p].shift - 3]
  }

  function RelistedView(v: View, p: nat): View
    requires p < |v.role| && v.role[p].Chunked? && 3 <= v.role[p].shift < |v.slots| + 3
  {
    var s := v.role[p].shift - 3;
    v.(slots := v.slots[s := [p] + v.slots[s]])
  }

  lemma RelistFrame(nodes: seq<Node>, v: View, p: nat, i: nat)
    requires Relistable(nodes, v, p) && i < |nodes|
    ensures var head := |v.role| + 1 + (v.role[p].shift - 3); var kind := nodes[p].kind;
            && head < |nodes| && 0 <= nodes[head].next < |nodes|
            && kind == KindOf(v.exact, v.role[p].shift)
            && var m := Pushed(nodes, head, p, kind)[i];
               && m.slab == nodes[i].slab
               && (i >= |v.role| && i != head ==> m == nodes[i])
               && (i < |v.role| && !v.role[i].Chunked? ==> m == nodes[i])
               && (i < |v.role| && v.role[i].Chunked? && v.role[i].shift != v.role[p].shift ==> m == nodes[i])
               && (i < |v.role| && v.role[i].Chunked? ==> m.kind == nodes[i].kind)
               && (i < |v.role| && i != p && nodes[i].next == NULL ==> m.next == NULL)
  {
    var s := v.role[p].shift - 3;
    var head := |v.role| + 1 + s;
    assert SlotOk(nodes, v.role, s, v.slots[s]);
    assert nodes[At(head, v.slots[s], -1)].next == Succ(head, v.slots[s], -1);
    assert ChunkedOk(nodes, v.role, v.slots, v.exact, p);
    var first := nodes[head].next;
    if first < |v.role| {
      assert ChunkedOk(nodes, v.role, v.slots, v.exact, first);
    }
  }

  lemma RelistedOwnList(nodes: seq<Node>, v: View, p: nat)
    requires Relistable(nodes, v, p)
    ensures var s := v.role[p].shift - 3; var head := |v.role| + 1 + s;
            && head < |nodes| && 0 <= nodes[head].next < |nodes|
            && SlotOk(Pushed(nodes, head, p, nodes[p].kind), v.role, s, [p] + v.slots[s])
  {
    var s := v.role[p].shift - 3;
    assert SlotOk(nodes, v.role, s, v.slots[s]);
    PushKeeps(nodes, |v.role| + 1 + s, v.slots[s], p, nodes[p].kind);
  }

  lemma RelistedChunked(nodes: seq<Node>, v: View, p: nat, i: nat)
    requires Relistable(nodes, v, p) && i < |v.role|
    ensures var head := |v.role| + 1 + (v.role[p].shift - 3);
            && head < |nodes| && 0 <= nodes[head].next < |nodes|
            && ChunkedOk(Pushed(nodes, head, p, nodes[p].kind), v.role, RelistedView(v, p).slots, v.exact, i)
  {
    RelistFrame(nodes, v, p, i);
    assert ChunkedOk(nodes, v.role, v.slots, v.exact, i);
    var s := v.role[p].shift - 3;
    assert RelistedView(v, p).slots[s][0] == p;
    assert i in v.slots[s] ==> i in RelistedView(v, p).slots[s];
  }

  lemma RelistedSlots(nodes: seq<Node>, v: View, p: nat)
    requires Relistable(nodes, v, p)
    ensures var head := |v.role| + 1 + (v.role[p].shift - 3);
            && head < |nodes| && 0 <= nodes[head].next < |nodes|
            && SlotListsOk(Pushed(nodes, head, p, nodes[p].kind), v.role, RelistedView(v, p).slots, v.exact)
  {
    RelistedOwnList(nodes, v, p);
    var s, role := v.role[p].shift - 3, v.role;
    var nodes', slots' := Pushed(nodes, |role| + 1 + s, p, nodes[p].kind), RelistedView(v, p).slots;
    forall t | 0 <= t < |slots'| ensures SlotOk(nodes', role, t, slots'[t]) {
      if t != s {
        RelistOtherList(nodes, v, p, t);
      }
    }
    forall i | 0 <= i < |role| ensures ChunkedOk(nodes', role, slots', v.exact, i) {
      RelistedChunked(nodes, v, p, i);
    }
  }

  lemma RelistOtherList(nodes: seq<Node>, v: View, p: nat, t: nat)
    requires Relistable(nodes, v, p) && t < |v.slots| && t != v.role[p].shift - 3
    ensures var head := |v.role| + 1 + (v.role[p].shift - 3);
            && head < |nodes| && 0 <= nodes[head].next < |nodes|
            && SlotOk(Pushed(nodes, head, p, nodes[p].kind), v.role, t, v.slots[t])
  {
    RelistFrame(nodes, v, p, |v.role| + 1 + t);
    var head := |v.role| + 1 + (v.role[p].shift - 3);
    var nodes' := Pushed(nodes, head, p, nodes[p].kind);
    assert SlotOk(nodes, v.role, t, v.slots[t]);
    forall k | 0 <= k < |v.slots[t]| ensures nodes'[v.slots[t][k]] == nodes[v.slots[t][k]] {
      RelistFrame(nodes, v, p, v.slots[t][k]);
    }
    SlotOkFrame(nodes, v.role, t, v.slots[t], nodes', v.role);
  }

  /** Listing a page again keeps the page invariant. */
  lemma RelistKeepsCore(nodes: seq<Node>, v: View, p: nat)
    requires Relistable(nodes, v, p)
    ensures var head := |v.role| + 1 + (v.role[p].shift - 3);
            && head < |nodes| && 0 <= nodes[head].next < |nodes|
            && Core(Pushed(nodes, head, p, nodes[p].kind), RelistedView(v, p), NULL)
  {
    RelistedSlots(nodes, v, p);
    var role := v.role;
    var nodes' := Pushed(nodes, |role| + 1 + (role[p].shift - 3), p, nodes[p].kind);
    forall i | 0 <= i < |role| ensures NodeOk(nodes', role, i, NULL) {
      assert NodeOk(nodes, role, i, NULL) && RoleOk(role, i);
      RelistFrame(nodes, v, p, i);
      if role[i].Free? {
        RelistFrame(nodes, v, p, i + role[i].len - 1);
      }
    }
    RelistFrame(nodes, v, p, |role|);
    forall k | 0 <= k < |v.order| ensures nodes'[v.order[k]] == nodes[v.order[k]] {
      assert v.order[k] in v.order;
      RelistFrame(nodes, v, p, v.order[k]);
    }
    LinkedFrame(nodes, nodes', |role|, v.order);
  }

  // ---- a page taken from the free runs is cut into blocks

  ghost predicate Cuttable(nodes: seq<Node>, v: View, p: nat, s: nat) {
    && Core(nodes, v, NULL)
    && p < |v.role| && v.role[p] == Run(1)
    && s < |v.slots| && v.slots[s] == []
  }

  function CutNodes(nodes: seq<Node>, v: View, p: nat, s: nat, slab: nat): (r: seq<Node>)
    requires |v.role| + 1 + s < |nodes| && p < |v.role|
    ensures |r| == |nodes|
  {
    var head := |v.role| + 1 + s;
    nodes[p := Node(slab, head, head, KindOf(v.exact, s + 3))][head := nodes[head].(next := p)]
  }

  function CutView(v: View, p: nat, s: nat, busy: set<nat>): View
    requires p < |v.role| && s < |v.slots|
  {
    v.(role := v.role[p := Chunked(s + 3, busy)], slots := v.slots[s := [p]])
  }

  /** Cutting a page into blocks keeps the page invariant. */
  lemma CutKeepsCore(nodes: seq<Node>, v: View, p: nat, s: nat, slab: nat, busy: set<nat>)
    requires Cuttable(nodes, v, p, s)
    ensures Core(CutNodes(nodes, v, p, s, slab), CutView(v, p, s, busy), NULL)
  {
    var nodes', v', role := CutNodes(nodes, v, p, s, slab), CutView(v, p, s, busy), v.role;
    RoleChangeRolesOk(role, p, Chunked(s + 3, busy));
    forall i | 0 <= i < |role| ensures NodeOk(nodes', v'.role, i, NULL) {
      assert NodeOk(nodes, role, i, NULL) && RoleOk(role, i) && RoleOk(role, p);
    }
    forall i: nat ensures i in v.order <==> i < |role| && v'.role[i].Free? {
      assert i in v.order <==> i < |role| && role[i].Free?;
    }
    forall k | 0 <= k < |v.order| ensures nodes'[v.order[k]] == nodes[v.order[k]] {
      assert v.order[k] in v.order;
    }
    LinkedFrame(nodes, nodes', |role|, v.order);
    CutSlots(nodes, v, p, s, slab, busy);
  }

  lemma CutSlots(nodes: seq<Node>, v: View, p: nat, s: nat, slab: nat, busy: set<nat>)
    requires Cuttable(nodes, v, p, s)
    ensures var v' := CutView(v, p, s, busy); SlotListsOk(CutNodes(nodes, v, p, s, slab), v'.role, v'.slots, v.exact)
  {
    var nodes', v', role := CutNodes(nodes, v, p, s, slab), CutView(v, p, s, busy), v.role;
    hide RolesOk, NodesOk, FreeListOk, Coalesced;
    forall t | 0 <= t < |v.slots| ensures SlotOk(nodes', v'.role, t, v'.slots[t]) {
      assert SlotOk(nodes, role, t, v.slots[t]);
      if t != s {
        SlotOkFrame(nodes, role, t, v.slots[t], nodes', v'.role);
      }
    }
    forall i | 0 <= i < |role| ensures ChunkedOk(nodes', v'.role, v'.slots, v.exact, i) {
      assert ChunkedOk(nodes, role, v.slots, v.exact, i);
    }
  }
}
