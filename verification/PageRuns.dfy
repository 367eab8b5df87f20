/** The page layer of the slab allocator: which pages form free runs, which are handed
    out, and how the page records encode that. */
module PageRuns {
  import opened PageLists

  const START: nat := 0x8000_0000_0000_0000
  const PAGE_BUSY: nat := 0xffff_ffff_ffff_ffff

  /** What a page is for.  A run is described at its first page; the other pages point
      back to it.  A chunked page is cut into blocks of 2^shift bytes, of which the ones
      in `busy` are handed out. */
  datatype Role =
    | Free(len: nat)
    | FreeBody(head: nat)
    | Run(len: nat)
    | RunBody(head: nat)
    | Chunked(shift: nat, busy: set<nat>)

  predicate IsFree(r: Role) { r.Free? || r.FreeBody? }

  /** The runs partition the pages. */
  ghost predicate RoleOk(role: seq<Role>, i: nat)
    requires i < |role|
  {
    match role[i]
    case Free(len) => 1 <= len && i + len <= |role| && forall j :: i < j < i + len ==> role[j] == FreeBody(i)
    case FreeBody(h) => h < i && role[h].Free? && i < h + role[h].len
    case Run(len) => 1 <= len && i + len <= |role| && forall j :: i < j < i + len ==> role[j] == RunBody(i)
    case RunBody(h) => h < i && role[h].Run? && i < h + role[h].len
    case Chunked(_, _) => true
  }

  ghost predicate RolesOk(role: seq<Role>) {
    forall i :: 0 <= i < |role| ==> RoleOk(role, i)
  }

  /** The free run at i is not followed by another one; the run at x does not count. */
  ghost predicate GapAfter(role: seq<Role>, i: nat, x: int)
    requires i < |role|
  {
    role[i].Free? && i != x && i + role[i].len < |role| && i + role[i].len != x
    ==> !role[i + role[i].len].Free?
  }

  ghost predicate Coalesced(role: seq<Role>, x: int) {
    forall i :: 0 <= i < |role| ==> GapAfter(role, i, x)
  }

  /** The record of page i encodes its role; x is a free run not yet on the free list. */
  ghost predicate NodeOk(nodes: seq<Node>, role: seq<Role>, i: nat, x: int)
    requires i < |role| <= |nodes|
  {
    match role[i]
    case Free(len) =>
      && nodes[i].slab == len
      && (i != x ==>
        && nodes[i].kind == Whole
        // the last page leads back to the first, wherever another page could look
        && (2 <= len && i + len < |role| ==> nodes[i + len - 1].prev == i))
    case FreeBody(_) => nodes[i].slab == 0 && nodes[i].next == NULL && nodes[i].kind == Whole
    case Run(len) => nodes[i].slab == len + START && nodes[i].next == NULL && nodes[i].kind == Whole
    case RunBody(_) => nodes[i].slab == PAGE_BUSY && nodes[i].next == NULL && nodes[i].kind == Whole
    case Chunked(_, _) => true
  }

  ghost predicate NodesOk(nodes: seq<Node>, role: seq<Role>, x: int)
    requires |role| <= |nodes|
  {
    forall i :: 0 <= i < |role| ==> NodeOk(nodes, role, i, x)
  }

  ghost predicate ListsFreeRuns(role: seq<Role>, order: seq<nat>, x: int) {
    forall i: nat :: i in order <==> i < |role| && role[i].Free? && i != x
  }

  ghost predicate FreeListOk(nodes: seq<Node>, role: seq<Role>, order: seq<nat>, x: int) {
    && Linked(nodes, |role|, order)
    && ListsFreeRuns(role, order, x)
  }

  /** The list of one size class holds pages of its own shift. */
  ghost predicate SlotOk(nodes: seq<Node>, role: seq<Role>, s: nat, list: seq<nat>) {
    && Linked(nodes, |role| + 1 + s, list)
    && (forall k :: 0 <= k < |list| ==> list[k] < |role| && role[list[k]].Chunked? && role[list[k]].shift == s + 3)
  }

  /** The tag of a page cut into blocks of 2^shift bytes. */
  function KindOf(exact: nat, shift: nat): Kind {
    if shift < exact then Small else if shift == exact then Exact else Big
  }

  /** Chunked pages carry the tag of their size class; those on no list have no successor. */
  ghost predicate ChunkedOk(nodes: seq<Node>, role: seq<Role>, slots: seq<seq<nat>>, exact: nat, i: nat)
    requires i < |role| <= |nodes|
  {
    role[i].Chunked? ==>
      && nodes[i].kind == KindOf(exact, role[i].shift)
      && 3 <= role[i].shift < |slots| + 3
      && (i in slots[role[i].shift - 3] || nodes[i].next == NULL)
  }

  ghost predicate SlotListsOk(nodes: seq<Node>, role: seq<Role>, slots: seq<seq<nat>>, exact: nat) {
    && |nodes| == |role| + 1 + |slots|
    && (forall s :: 0 <= s < |slots| ==> SlotOk(nodes, role, s, slots[s]))
    && (forall i :: 0 <= i < |role| ==> ChunkedOk(nodes, role, slots, exact, i))
  }

  /** The abstract page state: the role of every page, the free list, the list of every
      size class, and the exact shift, at which one word has a bit for every block. */
  datatype View = View(role: seq<Role>, order: seq<nat>, slots: seq<seq<nat>>, exact: nat)

  ghost predicate Core(nodes: seq<Node>, v: View, x: int) {
    && |v.role| + 1 < START
    && |nodes| == |v.role| + 1 + |v.slots|
    && RolesOk(v.role)
    && (x != NULL ==> 0 <= x < |v.role| && v.role[x].Free?)
    && Coalesced(v.role, x)
    && NodesOk(nodes, v.role, x)
    && FreeListOk(nodes, v.role, v.order, x)
    && SlotListsOk(nodes, v.role, v.slots, v.exact)
  }

  // ---- taking pages from the front of a free run

  /** The first `pages` pages of the free run at p are handed out. */
  function Carved(role: seq<Role>, p: nat, pages: nat): (r: seq<Role>)
    requires p < |role| && role[p].Free? && 1 <= pages <= role[p].len
    ensures |r| == |role|
  {
    var len := role[p].len;
    seq(|role|, i requires 0 <= i < |role| =>
      if i == p then Run(pages)
      else if p < i < p + pages then RunBody(p)
      else if i == p + pages && pages < len then Free(len - pages)
      else if p + pages < i < p + len then FreeBody(p + pages)
      else role[i])
  }

  lemma CarvedRolesOk(role: seq<Role>, p: nat, pages: nat)
    requires RolesOk(role) && p < |role| && role[p].Free? && 1 <= pages <= role[p].len
    ensures RolesOk(Carved(role, p, pages))
    ensures Coalesced(role, NULL) ==> Coalesced(Carved(role, p, pages), NULL)
  {
    var len, role' := role[p].len, Carved(role, p, pages);
    assert RoleOk(role, p);
    forall i | 0 <= i < |role| ensures RoleOk(role', i) {
      assert RoleOk(role, i);
      OutsideRun(role, p, i);
    }
    if Coalesced(role, NULL) {
      forall i | 0 <= i < |role| ensures GapAfter(role', i, NULL) {
        if role'[i].Free? && i + role'[i].len < |role| {
          assert GapAfter(role, i, NULL) && GapAfter(role, p, NULL);
          OutsideRun(role, p, i);
          OutsideRun(role, p, i + role'[i].len);
        }
      }
    }
  }

  predicate IsHead(r: Role) { r.Free? || r.Run? }

  /** A page outside the run at p belongs to a run outside it. */
  lemma OutsideRun(role: seq<Role>, p: nat, i: nat)
    requires RolesOk(role) && p < |role| && IsHead(role[p]) && i < |role|
    ensures p < i < p + role[p].len ==> role[i] == if role[p].Free? then FreeBody(p) else RunBody(p)
    ensures !(p <= i < p + role[p].len) ==>
      match role[i]
      case Free(len) => i + len <= p || p + role[p].len <= i
      case Run(len) => i + len <= p || p + role[p].len <= i
      case FreeBody(h) => h != p && !(p <= h < p + role[p].len)
      case RunBody(h) => h != p && !(p <= h < p + role[p].len)
      case Chunked(_, _) => true
  {
    assert RoleOk(role, p) && RoleOk(role, i);
  }

  /** Records lo to hi - 1 are overwritten. */
  function Filled(nodes: seq<Node>, lo: nat, hi: nat, v: Node): (r: seq<Node>)
    ensures |r| == |nodes|
    ensures forall i :: 0 <= i < |nodes| ==> r[i] == if lo <= i < hi then v else nodes[i]
  {
    seq(|nodes|, i requires 0 <= i < |nodes| => if lo <= i < hi then v else nodes[i])
  }

  /** The record of a free run's remainder takes the run's place in the free list, or the
      run leaves the list when nothing remains. */
  function SplitOff(nodes: seq<Node>, p: nat, pages: nat, len: nat): (r: seq<Node>)
    requires 1 <= pages <= len && p + len <= |nodes|
    requires 0 <= nodes[p].prev < |nodes| && 0 <= nodes[p].next < |nodes|
    ensures |r| == |nodes|
  {
    if pages < len then
      var m := nodes[p + len - 1 := nodes[p + len - 1].(prev := p + pages, kind := Whole)];
      var m := m[p + pages := m[p + pages].(slab := len - pages)];
      Relinked(m, p, p + pages)
    else
      Unlinked(nodes, p)
  }

  /** The records of pages that are handed out together. */
  function Stamped(nodes: seq<Node>, p: nat, pages: nat): (r: seq<Node>)
    requires 1 <= pages && p + pages <= |nodes|
    ensures |r| == |nodes|
  {
    Filled(nodes[p := Node(pages + START, NULL, NULL, Whole)], p + 1, p + pages, Node(PAGE_BUSY, NULL, NULL, Whole))
  }

  function Taken(nodes: seq<Node>, p: nat, pages: nat, len: nat): (r: seq<Node>)
    requires 1 <= pages <= len && p + len <= |nodes|
    requires 0 <= nodes[p].prev < |nodes| && 0 <= nodes[p].next < |nodes|
    ensures |r| == |nodes|
  {
    Stamped(SplitOff(nodes, p, pages, len), p, pages)
  }

  /** The links of a listed free run stay among the free runs and the list head. */
  lemma FreeLinks(nodes: seq<Node>, role: seq<Role>, order: seq<nat>, x: int, k: nat)
    requires |role| < |nodes| && FreeListOk(nodes, role, order, x) && k < |order|
    ensures var p := order[k];
            && 0 <= nodes[p].next <= |role| && (nodes[p].next < |role| ==> role[nodes[p].next].Free? && nodes[p].next != x)
            && 0 <= nodes[p].prev <= |role| && (nodes[p].prev < |role| ==> role[nodes[p].prev].Free? && nodes[p].prev != x)
            && nodes[p].next != p && nodes[p].prev != p
  {
    LinkedAt(nodes, |role|, order, k);
    var p := order[k];
    assert p in order && (k > 0 ==> order[k - 1] in order) && (k + 1 < |order| ==> order[k + 1] in order);
  }

  /** The abstract state after the first `pages` pages of listed run k are handed out. */
  function TakenView(v: View, k: nat, pages: nat): View
    requires k < |v.order| && v.order[k] < |v.role| && v.role[v.order[k]].Free?
    requires 1 <= pages <= v.role[v.order[k]].len
  {
    var p := v.order[k];
    v.(role := Carved(v.role, p, pages),
       order := if pages < v.role[p].len then v.order[k := p + pages] else Without(v.order, k))
  }

  ghost predicate Takes(nodes: seq<Node>, v: View, k: nat, pages: nat) {
    && Core(nodes, v, NULL)
    && k < |v.order| && v.order[k] < |v.role| && v.role[v.order[k]].Free?
    && 1 <= pages <= v.role[v.order[k]].len
  }

  lemma TakesDefined(nodes: seq<Node>, v: View, k: nat, pages: nat)
    requires Takes(nodes, v, k, pages)
    ensures var p := v.order[k]; var len := v.role[p].len;
            && 0 <= nodes[p].prev < |nodes| && 0 <= nodes[p].next < |nodes| && p + len <= |v.role|
            && nodes[p].slab == len
  {
    FreeLinks(nodes, v.role, v.order, NULL, k);
    assert RoleOk(v.role, v.order[k]);
    assert NodeOk(nodes, v.role, v.order[k], NULL);
  }

  function TakenNodes(nodes: seq<Node>, v: View, k: nat, pages: nat): (r: seq<Node>)
    requires Takes(nodes, v, k, pages)
    ensures |r| == |nodes|
  {
    TakesDefined(nodes, v, k, pages);
    Taken(nodes, v.order[k], pages, v.role[v.order[k]].len)
  }

  lemma BodyUnlisted(nodes: seq<Node>, v: View, k: nat, i: nat)
    requires Takes(nodes, v, k, 1)
    requires v.order[k] < i < v.order[k] + v.role[v.order[k]].len
    ensures i < |v.role| && v.role[i] == FreeBody(v.order[k]) && i !in v.order
  {
    assert RoleOk(v.role, v.order[k]);
  }

  /** Splitting keeps the free list linked. */
  lemma SplitOffLinked(nodes: seq<Node>, head: nat, order: seq<nat>, k: nat, pages: nat, len: nat)
    requires Linked(nodes, head, order) && k < |order|
    requires 1 <= pages <= len && order[k] + len <= head
    requires pages < len ==> order[k] + pages !in order && order[k] + len - 1 !in order
    ensures var p := order[k];
            && 0 <= nodes[p].prev < |nodes| && 0 <= nodes[p].next < |nodes|
            && Linked(SplitOff(nodes, p, pages, len), head,
                      if pages < len then order[k := p + pages] else Without(order, k))
  {
    LinkedAt(nodes, head, order, k);
    var p := order[k];
    if pages < len {
      var t, q := p + len - 1, p + pages;
      PreparedRelinkKeeps(nodes, head, order, k, t, q, len - pages);
      var m := nodes[t := nodes[t].(prev := q, kind := Whole)];
      m := m[q := m[q].(slab := len - pages)];
      assert SplitOff(nodes, p, pages, len) == Relinked(m, p, q);
    } else {
      UnlinkKeeps(nodes, head, order, k);
    }
  }

  /** The listed runs afterwards: the others, and the remainder. */
  lemma TakenListed(nodes: seq<Node>, v: View, k: nat, pages: nat)
    requires Takes(nodes, v, k, pages)
    ensures var v' := TakenView(v, k, pages); ListsFreeRuns(v'.role, v'.order, NULL)
  {
    var p, v' := v.order[k], TakenView(v, k, pages);
    assert p in v.order;
    UpdateMembers(v.order, k, p + pages);
    WithoutDistinct(v.order, k);
    assert RoleOk(v.role, p);
    forall i: nat ensures i in v'.order <==> i < |v.role| && v'.role[i].Free? {
      assert i in v.order <==> i < |v.role| && v.role[i].Free?;
      if i < |v.role| {
        OutsideRun(v.role, p, i);
      }
    }
  }

  lemma StampedLinked(m: seq<Node>, head: nat, order: seq<nat>, p: nat, pages: nat)
    requires Linked(m, head, order) && 1 <= pages && p + pages <= head
    requires forall j :: 0 <= j < |order| ==> !(p <= order[j] < p + pages)
    ensures Linked(Stamped(m, p, pages), head, order)
  {
    LinkedFrame(m, Stamped(m, p, pages), head, order);
  }

  /** No page handed out is listed afterwards. */
  lemma TakenUnlisted(v: View, k: nat, pages: nat)
    requires k < |v.order| && v.order[k] < |v.role| && v.role[v.order[k]].Free?
    requires 1 <= pages <= v.role[v.order[k]].len
    requires var v' := TakenView(v, k, pages); ListsFreeRuns(v'.role, v'.order, NULL)
    ensures var v', p := TakenView(v, k, pages), v.order[k];
            forall j :: 0 <= j < |v'.order| ==> !(p <= v'.order[j] < p + pages)
  {
    var v', p := TakenView(v, k, pages), v.order[k];
    forall j | 0 <= j < |v'.order| ensures !(p <= v'.order[j] < p + pages) {
      assert v'.order[j] in v'.order;
    }
  }

  lemma TakenFreeList(nodes: seq<Node>, v: View, k: nat, pages: nat)
    requires Takes(nodes, v, k, pages)
    ensures var v' := TakenView(v, k, pages); FreeListOk(TakenNodes(nodes, v, k, pages), v'.role, v'.order, NULL)
  {
    TakesDefined(nodes, v, k, pages);
    var p, role, v' := v.order[k], v.role, TakenView(v, k, pages);
    if pages < role[p].len {
      BodyUnlisted(nodes, v, k, p + pages);
      BodyUnlisted(nodes, v, k, p + role[p].len - 1);
    }
    assert p + role[p].len <= |role| && Linked(nodes, |role|, v.order);
    TakenListed(nodes, v, k, pages);
    TakenUnlisted(v, k, pages);
    hide Core, RolesOk, NodesOk, SlotListsOk, Coalesced, Carved, Stamped, SplitOff, ListsFreeRuns, Linked, Without;
    SplitOffLinked(nodes, |role|, v.order, k, pages, role[p].len);
    StampedLinked(SplitOff(nodes, p, pages, role[p].len), |role|, v'.order, p, pages);
  }

  /** Handing out pages touches, outside the run, only links of other free runs. */
  lemma TakenFrame(nodes: seq<Node>, v: View, k: nat, pages: nat, i: nat)
    requires Takes(nodes, v, k, pages) && i < |nodes|
    requires !(v.order[k] <= i < v.order[k] + v.role[v.order[k]].len)
    ensures var m := TakenNodes(nodes, v, k, pages)[i];
            && m.slab == nodes[i].slab
            && ((i < |v.role| && !v.role[i].Free?) || i > |v.role| ==> m == nodes[i])
            && (i < |v.role| && v.role[i].Free? ==> m.kind == Whole)
  {
    TakesDefined(nodes, v, k, pages);
    FreeLinks(nodes, v.role, v.order, NULL, k);
    assert NodeOk(nodes, v.role, v.order[k], NULL);
    if i < |v.role| {
      assert NodeOk(nodes, v.role, i, NULL);
    }
  }

  /** The records of the remainder of a run: its head, its tail, and between. */
  lemma RestRecords(nodes: seq<Node>, p: nat, pages: nat, len: nat, i: nat)
    requires 1 <= pages < len && p + len <= |nodes| && p + pages <= i < p + len
    requires 0 <= nodes[p].prev < |nodes| && 0 <= nodes[p].next < |nodes|
    requires !(p <= nodes[p].prev < p + len) && !(p <= nodes[p].next < p + len) && nodes[p].kind == Whole
    ensures var r := Taken(nodes, p, pages, len);
            && r[p + pages].slab == len - pages && r[p + pages].kind == Whole
            && (2 <= len - pages ==> r[p + len - 1].prev == p + pages)
            && (p + pages < i ==> r[i].slab == nodes[i].slab && r[i].next == nodes[i].next
                                  && (nodes[i].kind == Whole ==> r[i].kind == Whole))
  {
  }

  /** The remainder of the run. */
  lemma TakenRest(nodes: seq<Node>, v: View, k: nat, pages: nat, i: nat)
    requires Takes(nodes, v, k, pages)
    requires v.order[k] + pages <= i < v.order[k] + v.role[v.order[k]].len
    ensures i < |v.role| && NodeOk(TakenNodes(nodes, v, k, pages), Carved(v.role, v.order[k], pages), i, NULL)
  {
    TakesDefined(nodes, v, k, pages);
    FreeLinks(nodes, v.role, v.order, NULL, k);
    hide Linked, FreeListOk, SlotListsOk, Coalesced, RolesOk;
    var p, role := v.order[k], v.role;
    assert NodeOk(nodes, role, i, NULL) && NodeOk(nodes, role, p, NULL);
    BodyUnlisted(nodes, v, k, i);
    FreeLinksOutside(nodes, v, k);
    hide Core, NodesOk, Taken;
    RestRecords(nodes, p, pages, role[p].len, i);
  }

  /** The links of a run lead outside it. */
  lemma FreeLinksOutside(nodes: seq<Node>, v: View, k: nat)
    requires Takes(nodes, v, k, 1)
    ensures var p := v.order[k]; var len := v.role[p].len;
            p + len <= |v.role| && !(p <= nodes[p].prev < p + len) && !(p <= nodes[p].next < p + len)
  {
    TakesDefined(nodes, v, k, 1);
    FreeLinks(nodes, v.role, v.order, NULL, k);
    var p := v.order[k];
    if nodes[p].next < |v.role| { OutsideRun(v.role, p, nodes[p].next); }
    if nodes[p].prev < |v.role| { OutsideRun(v.role, p, nodes[p].prev); }
  }

  /** A page that was not in the run. */
  lemma TakenElsewhere(nodes: seq<Node>, v: View, k: nat, pages: nat, i: nat)
    requires Takes(nodes, v, k, pages) && i < |v.role|
    requires !(v.order[k] <= i < v.order[k] + v.role[v.order[k]].len)
    ensures NodeOk(TakenNodes(nodes, v, k, pages), Carved(v.role, v.order[k], pages), i, NULL)
  {
    TakesDefined(nodes, v, k, pages);
    var p, role := v.order[k], v.role;
    assert NodeOk(nodes, role, i, NULL);
    OutsideRun(role, p, i);
    TakenFrame(nodes, v, k, pages, i);
    if role[i].Free? {
      OutsideRun(role, i, p);
      assert RoleOk(role, i);
      if role[i].len >= 2 {
        OutsideRun(role, i, i + role[i].len - 1);
        TakenFrame(nodes, v, k, pages, i + role[i].len - 1);
      }
    }
    hide Core, Taken, RolesOk, NodesOk;
  }

  /** A page handed out. */
  lemma TakenFront(nodes: seq<Node>, v: View, k: nat, pages: nat, i: nat)
    requires Takes(nodes, v, k, pages) && v.order[k] <= i < v.order[k] + pages
    ensures i < |v.role| && NodeOk(TakenNodes(nodes, v, k, pages), Carved(v.role, v.order[k], pages), i, NULL)
  {
    TakesDefined(nodes, v, k, pages);
    hide SplitOff, Core;
  }

  lemma TakenNodesOk(nodes: seq<Node>, v: View, k: nat, pages: nat)
    requires Takes(nodes, v, k, pages)
    ensures NodesOk(TakenNodes(nodes, v, k, pages), Carved(v.role, v.order[k], pages), NULL)
  {
    assert |v.role| < |nodes|;
    hide Core, TakenNodes, Carved, NodeOk;
    TakesDefined(nodes, v, k, pages);
    var p, role := v.order[k], v.role;
    var nodes', role' := TakenNodes(nodes, v, k, pages), Carved(role, p, pages);
    forall i | 0 <= i < |role| ensures NodeOk(nodes', role', i, NULL) {
      if p <= i < p + pages {
        TakenFront(nodes, v, k, pages, i);
      } else if p + pages <= i < p + role[p].len {
        TakenRest(nodes, v, k, pages, i);
      } else {
        TakenElsewhere(nodes, v, k, pages, i);
      }
    }
  }

  lemma SlotOkFrame(nodes: seq<Node>, role: seq<Role>, s: nat, list: seq<nat>, nodes': seq<Node>, role': seq<Role>)
    requires SlotOk(nodes, role, s, list) && |nodes'| == |nodes| && |role'| == |role|
    requires forall k :: 0 <= k < |list| ==> role'[list[k]] == role[list[k]] && nodes'[list[k]] == nodes[list[k]]
    requires nodes'[|role| + 1 + s] == nodes[|role| + 1 + s]
    ensures SlotOk(nodes', role', s, list)
  {
    LinkedFrame(nodes, nodes', |role| + 1 + s, list);
  }

  /** The size classes are untouched by writes to other records. */
  lemma SlotListsFrame(nodes: seq<Node>, v: View, nodes': seq<Node>, role': seq<Role>)
    requires SlotListsOk(nodes, v.role, v.slots, v.exact) && |nodes'| == |nodes| && |role'| == |v.role|
    requires forall i :: 0 <= i < |role'| && (v.role[i].Chunked? || role'[i].Chunked?)
               ==> role'[i] == v.role[i] && nodes'[i] == nodes[i]
    requires forall i :: |role'| < i < |nodes| ==> nodes'[i] == nodes[i]
    ensures SlotListsOk(nodes', role', v.slots, v.exact)
  {
    forall s | 0 <= s < |v.slots| ensures SlotOk(nodes', role', s, v.slots[s]) {
      assert SlotOk(nodes, v.role, s, v.slots[s]);
      SlotOkFrame(nodes, v.role, s, v.slots[s], nodes', role');
    }
    forall i | 0 <= i < |role'| ensures ChunkedOk(nodes', role', v.slots, v.exact, i) {
      assert ChunkedOk(nodes, v.role, v.slots, v.exact, i);
    }
  }

  lemma TakenSlots(nodes: seq<Node>, v: View, k: nat, pages: nat)
    requires Takes(nodes, v, k, pages)
    ensures SlotListsOk(TakenNodes(nodes, v, k, pages), Carved(v.role, v.order[k], pages), v.slots, v.exact)
  {
    TakesDefined(nodes, v, k, pages);
    var nodes', role' := TakenNodes(nodes, v, k, pages), Carved(v.role, v.order[k], pages);
    forall i | 0 <= i < |role'| && (v.role[i].Chunked? || role'[i].Chunked?)
      ensures role'[i] == v.role[i] && nodes'[i] == nodes[i]
    {
      OutsideRun(v.role, v.order[k], i);
      TakenFrame(nodes, v, k, pages, i);
    }
    forall i | |role'| < i < |nodes| ensures nodes'[i] == nodes[i] {
      TakenFrame(nodes, v, k, pages, i);
    }
    SlotListsFrame(nodes, v, nodes', role');
  }

  /** Handing out the first pages of a listed free run keeps the page invariant. */
  lemma TakenKeepsCore(nodes: seq<Node>, v: View, k: nat, pages: nat)
    requires Takes(nodes, v, k, pages)
    ensures Core(TakenNodes(nodes, v, k, pages), TakenView(v, k, pages), NULL)
  {
    TakesDefined(nodes, v, k, pages);
    TakenFreeList(nodes, v, k, pages);
    TakenNodesOk(nodes, v, k, pages);
    TakenSlots(nodes, v, k, pages);
    CarvedRolesOk(v.role, v.order[k], pages);
  }

  // ---- giving pages back

  /** The pages of the run at p are free; they are not on the free list yet. */
  function Freed(role: seq<Role>, p: nat): (r: seq<Role>)
    requires p < |role| && role[p].Run?
    ensures |r| == |role|
  {
    seq(|role|, i requires 0 <= i < |role| =>
      if i == p then Free(role[p].len)
      else if p < i < p + role[p].len then FreeBody(p)
      else role[i])
  }

  function Cleared(nodes: seq<Node>, p: nat, len: nat): (r: seq<Node>)
    requires p < |nodes| && p + len <= |nodes|
    ensures |r| == |nodes|
  {
    Filled(nodes[p := nodes[p].(slab := len)], p + 1, p + len, ZEROED)
  }

  lemma FreedRolesOk(role: seq<Role>, p: nat)
    requires RolesOk(role) && Coalesced(role, NULL) && p < |role| && role[p].Run?
    ensures RolesOk(Freed(role, p)) && Coalesced(Freed(role, p), p)
  {
    var role' := Freed(role, p);
    assert RoleOk(role, p);
    forall i | 0 <= i < |role| ensures RoleOk(role', i) && GapAfter(role', i, p) {
      assert RoleOk(role, i) && GapAfter(role, i, NULL);
      OutsideRun(role, p, i);
      if role[i].Free? && i + role[i].len < |role| {
        OutsideRun(role, p, i + role[i].len);
      }
    }
  }

  lemma FreedListed(role: seq<Role>, order: seq<nat>, p: nat)
    requires RolesOk(role) && p < |role| && role[p].Run? && ListsFreeRuns(role, order, NULL)
    ensures ListsFreeRuns(Freed(role, p), order, p)
  {
    var role' := Freed(role, p);
    assert RoleOk(role, p);
    forall i: nat ensures i in order <==> i < |role| && role'[i].Free? && i != p {
      assert i in order <==> i < |role| && role[i].Free?;
      if i < |role| {
        OutsideRun(role, p, i);
      }
    }
  }

  lemma ClearedNodesOk(nodes: seq<Node>, role: seq<Role>, p: nat)
    requires |role| <= |nodes| && RolesOk(role) && NodesOk(nodes, role, NULL) && p < |role| && role[p].Run?
    ensures p + role[p].len <= |role| && NodesOk(Cleared(nodes, p, role[p].len), Freed(role, p), p)
  {
    assert RoleOk(role, p);
    var nodes', role' := Cleared(nodes, p, role[p].len), Freed(role, p);
    forall i | 0 <= i < |role| ensures NodeOk(nodes', role', i, p) {
      assert NodeOk(nodes, role, i, NULL);
      OutsideRun(role, p, i);
      if role[i].Free? {
        assert RoleOk(role, i);
        OutsideRun(role, p, i + role[i].len - 1);
      }
    }
  }

  /** Freeing a run of whole pages, before it is joined with its neighbours. */
  lemma DetachRun(nodes: seq<Node>, v: View, p: nat)
    requires Core(nodes, v, NULL) && p < |v.role| && v.role[p].Run?
    ensures p + v.role[p].len <= |v.role|
    ensures Core(Cleared(nodes, p, v.role[p].len), v.(role := Freed(v.role, p)), p)
  {
    assert RoleOk(v.role, p);
    var role, nodes', role' := v.role, Cleared(nodes, p, v.role[p].len), Freed(v.role, p);
    FreedRolesOk(role, p);
    FreedListed(role, v.order, p);
    ClearedNodesOk(nodes, role, p);
    forall i | 0 <= i < |role| && (role[i].Chunked? || role'[i].Chunked?)
      ensures role'[i] == role[i] && nodes'[i] == nodes[i]
    {
      OutsideRun(role, p, i);
    }
    SlotListsFrame(nodes, v, nodes', role');
    forall k | 0 <= k < |v.order| ensures nodes'[v.order[k]] == nodes[v.order[k]] {
      assert v.order[k] in v.order;
      OutsideRun(role, p, v.order[k]);
    }
    LinkedFrame(nodes, nodes', |role|, v.order);
  }

  /** A listed chunked page leaves its size class. */
  function Unslotted(nodes: seq<Node>, p: nat): (r: seq<Node>)
    requires p < |nodes| && 0 <= nodes[p].prev < |nodes| && 0 <= nodes[p].next < |nodes|
    ensures |r| == |nodes|
  {
    Unlinked(nodes[p := nodes[p].(slab := 1)], p)
  }

  function UnslottedView(v: View, s: nat, k: nat): View
    requires s < |v.slots| && k < |v.slots[s]| && v.slots[s][k] < |v.role|
  {
    v.(role := v.role[v.slots[s][k] := Free(1)], slots := v.slots[s := Without(v.slots[s], k)])
  }

  ghost predicate Listed(nodes: seq<Node>, v: View, s: nat, k: nat) {
    && Core(nodes, v, NULL)
    && s < |v.slots| && k < |v.slots[s]|
  }

  /** The links of a listed chunked page stay within its size class. */
  lemma SlotLinks(nodes: seq<Node>, v: View, s: nat, k: nat)
    requires Listed(nodes, v, s, k)
    ensures var p := v.slots[s][k];
            && p < |v.role| && v.role[p].Chunked? && v.role[p].shift == s + 3 && nodes[p].kind == KindOf(v.exact, s + 3)
            && (nodes[p].next == |v.role| + 1 + s
                || (0 <= nodes[p].next < |v.role| && v.role[nodes[p].next].Chunked? && v.role[nodes[p].next].shift == s + 3))
            && (nodes[p].prev == |v.role| + 1 + s
                || (0 <= nodes[p].prev < |v.role| && v.role[nodes[p].prev].Chunked? && v.role[nodes[p].prev].shift == s + 3))
            && nodes[p].next != p && nodes[p].prev != p
  {
    assert SlotOk(nodes, v.role, s, v.slots[s]);
    LinkedAt(nodes, |v.role| + 1 + s, v.slots[s], k);
    assert ChunkedOk(nodes, v.role, v.slots, v.exact, v.slots[s][k]);
  }

  lemma RoleChangeRolesOk(role: seq<Role>, p: nat, r: Role)
    requires RolesOk(role) && p < |role| && (role[p].Chunked? || role[p] == Run(1)) && (r == Free(1) || r.Chunked?)
    ensures RolesOk(role[p := r])
    ensures Coalesced(role, NULL) ==> Coalesced(role[p := r], if r.Free? then p else NULL)
  {
    var role' := role[p := r];
    forall i | 0 <= i < |role| ensures RoleOk(role', i) {
      assert RoleOk(role, i) && RoleOk(role, p);
    }
    if Coalesced(role, NULL) {
      var x := if r.Free? then p else NULL;
      forall i | 0 <= i < |role| ensures GapAfter(role', i, x) {
        assert GapAfter(role, i, NULL);
      }
    }
  }

  /** The records of the other pages, when a chunked page leaves its size class. */
  lemma UnslottedFrame(nodes: seq<Node>, v: View, s: nat, k: nat, i: nat)
    requires Listed(nodes, v, s, k) && i < |nodes| && i != v.slots[s][k]
    ensures var p := v.slots[s][k];
            && p < |v.role| && 0 <= nodes[p].next < |nodes| && 0 <= nodes[p].prev < |nodes|
            && var m := Unslotted(nodes, p)[i];
               && m.slab == nodes[i].slab
               && (i >= |v.role| && i != |v.role| + 1 + s ==> m == nodes[i])
               && (i < |v.role| && !v.role[i].Chunked? ==> m == nodes[i])
               && (i < |v.role| && v.role[i].Chunked? && v.role[i].shift != s + 3 ==> m == nodes[i])
               && (i < |v.role| && v.role[i].Chunked? ==> m.kind == nodes[i].kind)
               && (i < |v.role| && i !in v.slots[s] ==> m == nodes[i])
  {
    SlotLinks(nodes, v, s, k);
    assert SlotOk(nodes, v.role, s, v.slots[s]);
    LinkedAt(nodes, |v.role| + 1 + s, v.slots[s], k);
    if i < |v.role| {
      assert ChunkedOk(nodes, v.role, v.slots, v.exact, i);
    }
  }

  lemma UnslottedOwnList(nodes: seq<Node>, v: View, s: nat, k: nat)
    requires Listed(nodes, v, s, k)
    ensures var p := v.slots[s][k];
            && p < |v.role| && 0 <= nodes[p].next < |nodes| && 0 <= nodes[p].prev < |nodes|
            && SlotOk(Unslotted(nodes, p), v.role[p := Free(1)], s, Without(v.slots[s], k))
  {
    SlotLinks(nodes, v, s, k);
    var list, head := v.slots[s], |v.role| + 1 + s;
    assert SlotOk(nodes, v.role, s, list);
    hide Core, Unlinked, Linked, SlotListsOk, Without, Distinct;
    RewrittenUnlinkKeeps(nodes, head, list, k, 1);
    OthersListed(nodes, v, s, k);
  }

  lemma OthersListed(nodes: seq<Node>, v: View, s: nat, k: nat)
    requires Listed(nodes, v, s, k)
    ensures var rest := Without(v.slots[s], k);
            forall j :: 0 <= j < |rest| ==>
              rest[j] < |v.role| && rest[j] != v.slots[s][k] && v.role[rest[j]].Chunked? && v.role[rest[j]].shift == s + 3
  {
    WithoutMembers(nodes, v, s, k);
    assert SlotOk(nodes, v.role, s, v.slots[s]);
    var rest := Without(v.slots[s], k);
    hide Linked, Core, Without;
    forall j | 0 <= j < |rest|
      ensures rest[j] < |v.role| && rest[j] != v.slots[s][k] && v.role[rest[j]].Chunked? && v.role[rest[j]].shift == s + 3
    {
      assert rest[j] in rest;
    }
  }

  lemma UnslottedOtherList(nodes: seq<Node>, v: View, s: nat, k: nat, t: nat)
    requires Listed(nodes, v, s, k) && t < |v.slots| && t != s
    ensures var p := v.slots[s][k];
            && p < |v.role| && 0 <= nodes[p].next < |nodes| && 0 <= nodes[p].prev < |nodes|
            && SlotOk(Unslotted(nodes, p), v.role[p := Free(1)], t, v.slots[t])
  {
    SlotLinks(nodes, v, s, k);
    var p := v.slots[s][k];
    assert SlotOk(nodes, v.role, t, v.slots[t]);
    UnslottedFrame(nodes, v, s, k, |v.role| + 1 + t);
    forall j | 0 <= j < |v.slots[t]| ensures Unslotted(nodes, p)[v.slots[t][j]] == nodes[v.slots[t][j]] {
      UnslottedFrame(nodes, v, s, k, v.slots[t][j]);
    }
    SlotOkFrame(nodes, v.role, t, v.slots[t], Unslotted(nodes, p), v.role[p := Free(1)]);
  }

  lemma UnslottedSlots(nodes: seq<Node>, v: View, s: nat, k: nat)
    requires Listed(nodes, v, s, k)
    ensures var p := v.slots[s][k];
            && p < |v.role| && 0 <= nodes[p].next < |nodes| && 0 <= nodes[p].prev < |nodes|
            && var v' := UnslottedView(v, s, k);
               SlotListsOk(Unslotted(nodes, p), v'.role, v'.slots, v.exact)
  {
    SlotLinks(nodes, v, s, k);
    var p, v', role := v.slots[s][k], UnslottedView(v, s, k), v.role;
    var nodes' := Unslotted(nodes, p);
    forall t | 0 <= t < |v.slots| ensures SlotOk(nodes', v'.role, t, v'.slots[t]) {
      if t == s {
        UnslottedOwnList(nodes, v, s, k);
      } else {
        UnslottedOtherList(nodes, v, s, k, t);
      }
    }
    WithoutMembers(nodes, v, s, k);
    forall i | 0 <= i < |role| ensures ChunkedOk(nodes', v'.role, v'.slots, v.exact, i) {
      assert ChunkedOk(nodes, role, v.slots, v.exact, i);
      if i != p {
        UnslottedFrame(nodes, v, s, k, i);
      }
    }
  }

  lemma WithoutMembers(nodes: seq<Node>, v: View, s: nat, k: nat)
    requires Listed(nodes, v, s, k)
    ensures forall x :: x in Without(v.slots[s], k) <==> x in v.slots[s] && x != v.slots[s][k]
  {
    assert SlotOk(nodes, v.role, s, v.slots[s]);
    WithoutDistinct(v.slots[s], k);
  }

  /** Freeing a chunked page that is on its size class's list. */
  lemma DetachChunked(nodes: seq<Node>, v: View, s: nat, k: nat)
    requires Listed(nodes, v, s, k)
    ensures var p := v.slots[s][k];
            && p < |v.role| && 0 <= nodes[p].next < |nodes| && 0 <= nodes[p].prev < |nodes|
            && Core(Unslotted(nodes, p), UnslottedView(v, s, k), p)
  {
    SlotLinks(nodes, v, s, k);
    var p, v', role := v.slots[s][k], UnslottedView(v, s, k), v.role;
    var nodes' := Unslotted(nodes, p);
    RoleChangeRolesOk(role, p, Free(1));
    UnslottedSlots(nodes, v, s, k);
    forall i | 0 <= i < |role| ensures NodeOk(nodes', v'.role, i, p) {
      assert NodeOk(nodes, role, i, NULL) && RoleOk(role, i);
      if i != p {
        UnslottedFrame(nodes, v, s, k, i);
        if role[i].Free? {
          UnslottedFrame(nodes, v, s, k, i + role[i].len - 1);
        }
      }
    }
    forall i: nat ensures i in v.order <==> i < |role| && v'.role[i].Free? && i != p {
      assert i in v.order <==> i < |role| && role[i].Free?;
    }
    forall j | 0 <= j < |v.order| ensures nodes'[v.order[j]] == nodes[v.order[j]] {
      assert v.order[j] in v.order;
      UnslottedFrame(nodes, v, s, k, v.order[j]);
    }
    UnslottedFrame(nodes, v, s, k, |role|);
    LinkedFrame(nodes, nodes', |role|, v.order);
  }

  /** The free run at a swallows the one right behind it; y, the one of the two that was
      listed, leaves the free list. */
  function Merged(nodes: seq<Node>, a: nat, b: nat, y: nat): (r: seq<Node>)
    requires a < |nodes| && b < |nodes| && y < |nodes|
    requires 0 <= nodes[y].prev < |nodes| && 0 <= nodes[y].next < |nodes|
    ensures |r| == |nodes|
  {
    Unlinked(nodes[a := nodes[a].(slab := nodes[a].slab + nodes[b].slab)], y)[b := ZEROED]
  }

  function MergedRole(role: seq<Role>, a: nat): (r: seq<Role>)
    requires a < |role| && role[a].Free? && a + role[a].len < |role| && role[a + role[a].len].Free?
    ensures |r| == |role|
  {
    var len := role[a].len + role[a + role[a].len].len;
    seq(|role|, i requires 0 <= i < |role| =>
      if i == a then Free(len) else if a < i < a + len then FreeBody(a) else role[i])
  }

  /** Two neighbouring free runs: x is the unlisted one, the other is k-th on the list. */
  ghost predicate Neighbours(nodes: seq<Node>, v: View, x: int, a: nat, k: nat) {
    && Core(nodes, v, x)
    && a < |v.role| && v.role[a].Free? && a + v.role[a].len < |v.role|
    && var b := a + v.role[a].len;
       && v.role[b].Free?
       && (x == a || x == b)
       && k < |v.order| && v.order[k] == (if x == a then b else a)
  }

  lemma NeighboursFacts(nodes: seq<Node>, v: View, x: int, a: nat, k: nat)
    requires Neighbours(nodes, v, x, a, k)
    ensures var y := v.order[k]; var b := a + v.role[a].len;
            && 0 <= nodes[y].next <= |v.role| && (nodes[y].next < |v.role| ==> v.role[nodes[y].next].Free?)
            && 0 <= nodes[y].prev <= |v.role| && (nodes[y].prev < |v.role| ==> v.role[nodes[y].prev].Free?)
            && nodes[y].next != a && nodes[y].next != b && nodes[y].prev != a && nodes[y].prev != b
            && nodes[y].kind == Whole
            && nodes[a].slab == v.role[a].len && nodes[b].slab == v.role[b].len
            && b + v.role[b].len <= |v.role| && v.role[a].len >= 1 && v.role[b].len >= 1
  {
    FreeLinks(nodes, v.role, v.order, x, k);
    var b := a + v.role[a].len;
    assert RoleOk(v.role, a) && RoleOk(v.role, b);
    assert NodeOk(nodes, v.role, a, x) && NodeOk(nodes, v.role, b, x);
  }

  lemma MergedRolesOk(role: seq<Role>, a: nat, x: int)
    requires RolesOk(role) && Coalesced(role, x)
    requires a < |role| && role[a].Free? && a + role[a].len < |role| && role[a + role[a].len].Free?
    requires x == a || x == a + role[a].len
    ensures RolesOk(MergedRole(role, a)) && Coalesced(MergedRole(role, a), a)
  {
    var role', b := MergedRole(role, a), a + role[a].len;
    assert RoleOk(role, a) && RoleOk(role, b);
    forall i | 0 <= i < |role| ensures RoleOk(role', i) && GapAfter(role', i, a) {
      assert RoleOk(role, i) && GapAfter(role, i, x);
      OutsideRun(role, a, i);
      OutsideRun(role, b, i);
      if role[i].Free? && i + role[i].len < |role| {
        OutsideRun(role, a, i + role[i].len);
        OutsideRun(role, b, i + role[i].len);
      }
    }
  }

  /** Which roles change when a and its neighbour merge. */
  lemma MergedAt(role: seq<Role>, a: nat, i: nat)
    requires RolesOk(role) && i < |role|
    requires a < |role| && role[a].Free? && a + role[a].len < |role| && role[a + role[a].len].Free?
    ensures var b := a + role[a].len; var role' := MergedRole(role, a);
            && (i != a && i != b ==> (role'[i].Free? <==> role[i].Free?) && (role[i].Free? ==> role'[i] == role[i]))
            && (!IsFree(role[i]) ==> role'[i] == role[i])
            && (IsFree(role'[i]) <==> IsFree(role[i]))
            && !role'[b].Free? && role'[a].Free?
  {
    OutsideRun(role, a, i);
    OutsideRun(role, a + role[a].len, i);
    assert RoleOk(role, a + role[a].len) && RoleOk(role, a);
  }

  /** What the merge does to each record. */
  lemma MergedFrame(nodes: seq<Node>, v: View, x: int, a: nat, k: nat, i: nat)
    requires Neighbours(nodes, v, x, a, k) && i < |nodes|
    ensures var b := a + v.role[a].len; var y := v.order[k];
            && 0 <= nodes[y].prev < |nodes| && 0 <= nodes[y].next < |nodes|
            && var m := Merged(nodes, a, b, y)[i];
               && (i == b ==> m == ZEROED)
               && (i == a ==> m.slab == v.role[a].len + v.role[b].len)
               && (i != a && i != b ==> m.slab == nodes[i].slab)
               && ((i < |v.role| && !v.role[i].Free?) || i > |v.role| ==> m == nodes[i])
               && (i != a && i < |v.role| && v.role[i].Free? ==> m.kind == Whole)
  {
    NeighboursFacts(nodes, v, x, a, k);
    if i < |v.role| {
      assert NodeOk(nodes, v.role, i, x);
    }
  }

  lemma MergedNodeOk(nodes: seq<Node>, v: View, x: int, a: nat, k: nat, i: nat)
    requires Neighbours(nodes, v, x, a, k) && i < |v.role|
    ensures var b := a + v.role[a].len; var y := v.order[k];
            && 0 <= nodes[y].prev < |nodes| && 0 <= nodes[y].next < |nodes|
            && NodeOk(Merged(nodes, a, b, y), MergedRole(v.role, a), i, a)
  {
    NeighboursFacts(nodes, v, x, a, k);
    MergedFrame(nodes, v, x, a, k, i);
    assert NodeOk(nodes, v.role, i, x) && RoleOk(v.role, i);
    var role, b := v.role, a + v.role[a].len;
    if role[i].Free? && i != a && i != b {
      MergedOtherOk(nodes, v, x, a, k, i);
    } else {
      OutsideRun(role, a, i);
      OutsideRun(role, b, i);
      hide Core, Merged;
    }
  }

  lemma MergedOtherOk(nodes: seq<Node>, v: View, x: int, a: nat, k: nat, i: nat)
    requires Neighbours(nodes, v, x, a, k) && i < |v.role| && v.role[i].Free? && i != a && i != a + v.role[a].len
    ensures var b := a + v.role[a].len; var y := v.order[k];
            && 0 <= nodes[y].prev < |nodes| && 0 <= nodes[y].next < |nodes|
            && NodeOk(Merged(nodes, a, b, y), MergedRole(v.role, a), i, a)
  {
    MergedFrame(nodes, v, x, a, k, i);
    MergedAt(v.role, a, i);
    assert NodeOk(nodes, v.role, i, x);
    if v.role[i].len >= 2 {
      MergedTail(nodes, v, x, a, k, i);
    }
    hide Core, Merged, MergedRole;
  }

  /** The last page of any other run is not touched. */
  lemma MergedTail(nodes: seq<Node>, v: View, x: int, a: nat, k: nat, i: nat)
    requires Neighbours(nodes, v, x, a, k) && i < |v.role| && v.role[i].Free? && i != a && i != a + v.role[a].len
    requires 2 <= v.role[i].len
    ensures var b := a + v.role[a].len; var y := v.order[k];
            && 0 <= nodes[y].prev < |nodes| && 0 <= nodes[y].next < |nodes| && i + v.role[i].len <= |v.role|
            && Merged(nodes, a, b, y)[i + v.role[i].len - 1].prev == nodes[i + v.role[i].len - 1].prev
  {
    NeighboursFacts(nodes, v, x, a, k);
    assert RoleOk(v.role, i);
    OutsideRun(v.role, i, i + v.role[i].len - 1);
    MergedFrame(nodes, v, x, a, k, i + v.role[i].len - 1);
  }

  lemma MergedNodesOk(nodes: seq<Node>, v: View, x: int, a: nat, k: nat)
    requires Neighbours(nodes, v, x, a, k)
    ensures var b := a + v.role[a].len; var y := v.order[k];
            && 0 <= nodes[y].prev < |nodes| && 0 <= nodes[y].next < |nodes|
            && NodesOk(Merged(nodes, a, b, y), MergedRole(v.role, a), a)
  {
    NeighboursFacts(nodes, v, x, a, k);
    var nodes', role' := Merged(nodes, a, a + v.role[a].len, v.order[k]), MergedRole(v.role, a);
    forall i | 0 <= i < |v.role| ensures NodeOk(nodes', role', i, a) {
      MergedNodeOk(nodes, v, x, a, k, i);
    }
  }

  lemma MergedListed(nodes: seq<Node>, v: View, x: int, a: nat, k: nat)
    requires Neighbours(nodes, v, x, a, k)
    ensures ListsFreeRuns(MergedRole(v.role, a), Without(v.order, k), a)
  {
    NeighboursFacts(nodes, v, x, a, k);
    var role, order' := v.role, Without(v.order, k);
    WithoutDistinct(v.order, k);
    forall i: nat ensures i in order' <==> i < |role| && MergedRole(role, a)[i].Free? && i != a {
      assert i in v.order <==> i < |role| && role[i].Free? && i != x;
      if i < |role| {
        MergedAt(role, a, i);
      }
    }
  }

  lemma MergedLinked(nodes: seq<Node>, head: nat, order: seq<nat>, a: nat, b: nat, k: nat)
    requires Linked(nodes, head, order) && k < |order|
    requires a < head && b < head && b !in Without(order, k)
    ensures var y := order[k];
            && 0 <= nodes[y].prev < |nodes| && 0 <= nodes[y].next < |nodes|
            && Linked(Merged(nodes, a, b, y), head, Without(order, k))
  {
    var m := nodes[a := nodes[a].(slab := nodes[a].slab + nodes[b].slab)];
    LinkedFrame(nodes, m, head, order);
    LinkedAt(nodes, head, order, k);
    UnlinkKeeps(m, head, order, k);
    WriteKeeps(Unlinked(m, order[k]), head, Without(order, k), b, ZEROED);
  }

  lemma MergedFreeList(nodes: seq<Node>, v: View, x: int, a: nat, k: nat)
    requires Neighbours(nodes, v, x, a, k)
    ensures var b := a + v.role[a].len; var y := v.order[k];
            && 0 <= nodes[y].prev < |nodes| && 0 <= nodes[y].next < |nodes|
            && FreeListOk(Merged(nodes, a, b, y), MergedRole(v.role, a), Without(v.order, k), a)
  {
    NeighboursFacts(nodes, v, x, a, k);
    MergedListed(nodes, v, x, a, k);
    var b := a + v.role[a].len;
    MergedAt(v.role, a, b);
    MergedLinked(nodes, |v.role|, v.order, a, b, k);
  }

  /** Joining the unlisted free run with a free neighbour. */
  lemma MergeKeepsCore(nodes: seq<Node>, v: View, x: int, a: nat, k: nat)
    requires Neighbours(nodes, v, x, a, k)
    ensures var b := a + v.role[a].len; var y := v.order[k];
            && 0 <= nodes[y].prev < |nodes| && 0 <= nodes[y].next < |nodes|
            && Core(Merged(nodes, a, b, y), v.(role := MergedRole(v.role, a), order := Without(v.order, k)), a)
  {
    hide RolesOk, NodesOk, FreeListOk, SlotListsOk, Coalesced, Unlinked, Without, Merged, MergedRole;
    NeighboursFacts(nodes, v, x, a, k);
    MergedRolesOk(v.role, a, x);
    MergedNodesOk(nodes, v, x, a, k);
    MergedFreeList(nodes, v, x, a, k);
    MergedSlotLists(nodes, v, x, a, k);
    MergedAt(v.role, a, a);
  }

  lemma MergedSlotLists(nodes: seq<Node>, v: View, x: int, a: nat, k: nat)
    requires Neighbours(nodes, v, x, a, k)
    ensures var b := a + v.role[a].len; var y := v.order[k];
            && 0 <= nodes[y].prev < |nodes| && 0 <= nodes[y].next < |nodes|
            && SlotListsOk(Merged(nodes, a, b, y), MergedRole(v.role, a), v.slots, v.exact)
  {
    NeighboursFacts(nodes, v, x, a, k);
    var role, b, y := v.role, a + v.role[a].len, v.order[k];
    var nodes', role' := Merged(nodes, a, b, y), MergedRole(v.role, a);
    forall i | 0 <= i < |role| && (role[i].Chunked? || role'[i].Chunked?)
      ensures role'[i] == role[i] && nodes'[i] == nodes[i]
    {
      MergedAt(role, a, i);
      MergedFrame(nodes, v, x, a, k, i);
    }
    forall i | |role| < i < |nodes| ensures nodes'[i] == nodes[i] {
      MergedFrame(nodes, v, x, a, k, i);
    }
    hide RolesOk, NodesOk, FreeListOk, SlotListsOk, Coalesced;
    SlotListsFrame(nodes, v, nodes', role');
  }

  /** The unlisted free run is closed with a tail pointer and becomes first on the list. */
  function Attached(nodes: seq<Node>, head: nat, x: nat, len: nat): (r: seq<Node>)
    requires head < |nodes| && 1 <= len && x + len <= head && 0 <= nodes[head].next < |nodes|
    ensures |r| == |nodes|
  {
    var m := if len >= 2 then nodes[x + len - 1 := nodes[x + len - 1].(prev := x, kind := Whole)] else nodes;
    Pushed(m, head, x, Whole)
  }

  /** No free page borders the run at x. */
  ghost predicate Isolated(role: seq<Role>, x: nat)
    requires x < |role| && role[x].Free?
  {
    && (x + role[x].len < |role| ==> !role[x + role[x].len].Free?)
    && (x > 0 ==> !IsFree(role[x - 1]))
  }

  ghost predicate Attachable(nodes: seq<Node>, v: View, x: nat) {
    && Core(nodes, v, x)
    && Isolated(v.role, x)
  }

  lemma AttachFacts(nodes: seq<Node>, v: View, x: nat)
    requires Attachable(nodes, v, x)
    ensures x < |v.role| && v.role[x].Free? && |nodes| == |v.role| + 1 + |v.slots|
    ensures var first := nodes[|v.role|].next;
            && 0 <= first <= |v.role| && first != x && (first < |v.role| ==> v.role[first].Free?)
            && v.role[x].len >= 1 && x + v.role[x].len <= |v.role| && nodes[x].slab == v.role[x].len
  {
    assert RoleOk(v.role, x) && NodeOk(nodes, v.role, x, x);
    assert nodes[At(|v.role|, v.order, -1)].next == Succ(|v.role|, v.order, -1);
    assert |v.order| > 0 ==> v.order[0] in v.order;
  }

  lemma AttachNodesOk(nodes: seq<Node>, v: View, x: nat)
    requires Attachable(nodes, v, x)
    ensures var len := v.role[x].len;
            && 1 <= len && x + len <= |v.role| && 0 <= nodes[|v.role|].next < |nodes|
            && NodesOk(Attached(nodes, |v.role|, x, len), v.role, NULL)
  {
    AttachFacts(nodes, v, x);
    var role, len := v.role, v.role[x].len;
    var nodes' := Attached(nodes, |role|, x, len);
    forall i | 0 <= i < |role| ensures NodeOk(nodes', role, i, NULL) {
      assert NodeOk(nodes, role, i, x) && RoleOk(role, i);
      OutsideRun(role, x, i);
      if len >= 2 {
        OutsideRun(role, x, x + len - 1);
      }
      if role[i].Free? && i != x {
        OutsideRun(role, i, i + role[i].len - 1);
        OutsideRun(role, x, i + role[i].len - 1);
      }
    }
  }

  lemma AttachedLinked(nodes: seq<Node>, head: nat, order: seq<nat>, x: nat, len: nat)
    requires Linked(nodes, head, order) && 1 <= len && x + len <= head
    requires x !in order && x + len - 1 !in order
    ensures 0 <= nodes[head].next < |nodes|
    ensures Linked(Attached(nodes, head, x, len), head, [x] + order)
  {
    assert nodes[At(head, order, -1)].next == Succ(head, order, -1);
    if len >= 2 {
      var t := x + len - 1;
      var m := nodes[t := nodes[t].(prev := x, kind := Whole)];
      WriteKeeps(nodes, head, order, t, m[t]);
      PushKeeps(m, head, order, x, Whole);
    } else {
      PushKeeps(nodes, head, order, x, Whole);
    }
  }

  lemma AttachListed(role: seq<Role>, order: seq<nat>, x: nat)
    requires ListsFreeRuns(role, order, x) && x < |role| && role[x].Free?
    ensures ListsFreeRuns(role, [x] + order, NULL)
  {
    forall i: nat ensures i in [x] + order <==> i < |role| && role[i].Free? {
      assert i in order <==> i < |role| && role[i].Free? && i != x;
      assert i in [x] + order <==> i == x || i in order;
    }
  }

  lemma AttachFreeList(nodes: seq<Node>, v: View, x: nat)
    requires Attachable(nodes, v, x)
    ensures var len := v.role[x].len;
            && 1 <= len && x + len <= |v.role| && 0 <= nodes[|v.role|].next < |nodes|
            && FreeListOk(Attached(nodes, |v.role|, x, len), v.role, [x] + v.order, NULL)
  {
    AttachFacts(nodes, v, x);
    OutsideRun(v.role, x, x + v.role[x].len - 1);
    AttachedLinked(nodes, |v.role|, v.order, x, v.role[x].len);
    AttachListed(v.role, v.order, x);
  }

  /** Putting a run without free neighbours on the free list. */
  lemma AttachKeepsCore(nodes: seq<Node>, v: View, x: nat)
    requires Attachable(nodes, v, x)
    ensures var len := v.role[x].len;
            && 1 <= len && x + len <= |v.role| && 0 <= nodes[|v.role|].next < |nodes|
            && Core(Attached(nodes, |v.role|, x, len), v.(order := [x] + v.order), NULL)
  {
    AttachFacts(nodes, v, x);
    AttachNodesOk(nodes, v, x);
    AttachFreeList(nodes, v, x);
    AttachCoalesces(nodes, v, x);
    AttachSparesChunked(nodes, v, x);
    SlotListsFrame(nodes, v, Attached(nodes, |v.role|, x, v.role[x].len), v.role);
    hide RolesOk, Coalesced, NodesOk, FreeListOk, SlotListsOk, Isolated, RoleOk, Attached;
  }

  lemma AttachCoalesces(nodes: seq<Node>, v: View, x: nat)
    requires Attachable(nodes, v, x)
    ensures Coalesced(v.role, NULL)
  {
    forall i | 0 <= i < |v.role| ensures GapAfter(v.role, i, NULL) {
      assert GapAfter(v.role, i, x) && RoleOk(v.role, i);
    }
  }

  /** The records of pages cut into blocks are not touched. */
  lemma AttachSparesChunked(nodes: seq<Node>, v: View, x: nat)
    requires Attachable(nodes, v, x)
    ensures var len := v.role[x].len;
            1 <= len && x + len <= |v.role| && 0 <= nodes[|v.role|].next < |nodes|
            && forall i :: 0 <= i < |v.role| && v.role[i].Chunked? ==> Attached(nodes, |v.role|, x, len)[i] == nodes[i]
  {
    AttachFacts(nodes, v, x);
    var role, len := v.role, v.role[x].len;
    forall i | 0 <= i < |role| && role[i].Chunked? ensures Attached(nodes, |role|, x, len)[i] == nodes[i] {
      OutsideRun(role, x, i);
      OutsideRun(role, x, x + len - 1);
    }
  }

  // ---- recognising free neighbours by their records alone

  /** A page record marks the first page of a listed free run exactly when its tag is zero
      and it has a successor. */
  lemma FreeHeadRecord(nodes: seq<Node>, v: View, x: int, j: nat)
    requires Core(nodes, v, x) && j < |v.role| && j != x
    ensures v.role[j].Free? <==> nodes[j].kind == Whole && nodes[j].next != NULL
    ensures v.role[j].Free? ==> nodes[j].slab == v.role[j].len >= 1
  {
    assert NodeOk(nodes, v.role, j, x) && ChunkedOk(nodes, v.role, v.slots, v.exact, j) && RoleOk(v.role, j);
    if v.role[j].Free? {
      assert j in v.order;
      var k :| 0 <= k < |v.order| && v.order[k] == j;
      FreeLinks(nodes, v.role, v.order, x, k);
    }
  }

  /** The page before x, or the page its record leads back to, starts the free run that ends
      at x, if there is one. */
  lemma LeftRunRecord(nodes: seq<Node>, v: View, x: nat) returns (j: nat)
    requires Core(nodes, v, x) && 0 < x
    ensures j < x && (IsFree(v.role[x - 1]) <==> v.role[j].Free?)
    ensures v.role[j].Free? ==> j + v.role[j].len == x
    ensures nodes[x - 1].kind == Whole ==> nodes[j].kind == Whole
    ensures nodes[x - 1].kind == Whole && nodes[x - 1].slab == 0 ==> nodes[x - 1].prev == j
    ensures nodes[x - 1].kind == Whole && nodes[x - 1].slab != 0 ==> x - 1 == j
    ensures nodes[x - 1].kind != Whole ==> !v.role[j].Free?
  {
    var role := v.role;
    assert NodeOk(nodes, role, x - 1, x) && ChunkedOk(nodes, role, v.slots, v.exact, x - 1) && RoleOk(role, x - 1);
    j := if role[x - 1].FreeBody? then role[x - 1].head else x - 1;
    assert NodeOk(nodes, role, j, x);
    if role[j].Free? {
      assert RoleOk(role, j);
      OutsideRun(role, j, x);
    }
  }

  /** Left of the run at j, once no free run may touch it, there is no free page. */
  lemma LeftIsolated(role: seq<Role>, j: nat, x: int)
    requires RolesOk(role) && Coalesced(role, x) && 0 < j < |role| && role[j].Free? && j != x && (x < 0 || j < x)
    ensures !IsFree(role[j - 1])
  {
    assert RoleOk(role, j - 1) && RoleOk(role, j);
    var h := if role[j - 1].FreeBody? then role[j - 1].head else j - 1;
    assert RoleOk(role, h) && GapAfter(role, h, x);
  }

  /** Merging with the free run on the left leaves a run without free neighbours. */
  lemma LeftNeighbour(nodes: seq<Node>, v: View, x: nat, j: nat) returns (k: nat)
    requires Core(nodes, v, x)
    requires var next := x + v.role[x].len; next < |v.role| ==> !v.role[next].Free?
    requires j < x && v.role[j].Free? && j + v.role[j].len == x
    ensures k < |v.order| && v.order[k] == j && Neighbours(nodes, v, x, j, k)
    ensures Isolated(MergedRole(v.role, j), j)
  {
    assert j in v.order;
    k :| 0 <= k < |v.order| && v.order[k] == j;
    assert RoleOk(v.role, x);
    if j > 0 {
      LeftIsolated(v.role, j, x);
      MergedAt(v.role, j, j - 1);
    }
    var end := x + v.role[x].len;
    if end < |v.role| {
      MergedAt(v.role, j, end);
    }
  }

  lemma ListHead(nodes: seq<Node>, v: View, s: nat)
    requires Core(nodes, v, NULL) && s < |v.slots|
    ensures nodes[|v.role| + 1 + s].next == if v.slots[s] == [] then |v.role| + 1 + s else v.slots[s][0]
  {
    assert SlotOk(nodes, v.role, s, v.slots[s]);
    var head := |v.role| + 1 + s;
    assert nodes[At(head, v.slots[s], -1)].next == Succ(head, v.slots[s], -1);
  }

  lemma SlotDistinct(nodes: seq<Node>, v: View, s: nat)
    requires Core(nodes, v, NULL) && s < |v.slots|
    ensures Distinct(v.slots[s])
  {
    assert SlotOk(nodes, v.role, s, v.slots[s]);
  }
}
