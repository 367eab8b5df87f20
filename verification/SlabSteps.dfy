/** How each step of the slab allocator changes the pool as a whole: its invariant, its live
    blocks and its counters. */
module SlabSteps {
  import opened Arithmetic
  import opened Bits
  import opened PageLists
  import opened PageRuns
  import opened PageClasses
  import opened Ranges
  import opened SlabBlocks
  import opened SlabModel

  /** Exactly one block becomes live. */
  ghost predicate Gains(pageShift: nat, role: seq<Role>, role': seq<Role>, b: Block)
    requires PageShiftOk(pageShift)
  {
    && !Live(pageShift, role, b)
    && Live(pageShift, role', b)
    && forall c {:trigger Live(pageShift, role', c)} :: c != b ==> (Live(pageShift, role', c) <==> Live(pageShift, role, c))
  }

  lemma PoolRolesFit(pageShift: nat, nodes: seq<Node>, mem: seq<seq<nat>>, v: View)
    requires PoolOk(pageShift, nodes, mem, v)
    ensures RolesFit(pageShift, v.role)
  {
    forall i | 0 <= i < |v.role| ensures BusyOk(pageShift, v.role, i) {
      assert PageBlocksOk(pageShift, nodes, mem, v, i);
    }
  }

  /** A page whose role, word, bitmap and listing are unchanged stays consistent. */
  lemma PageUntouched(pageShift: nat, nodes: seq<Node>, mem: seq<seq<nat>>, v: View,
                      nodes': seq<Node>, mem': seq<seq<nat>>, v': View, i: nat)
    requires PageShiftOk(pageShift) && i < |v.role| == |v'.role| == |mem| == |mem'|
    requires |v.role| <= |nodes| == |nodes'| && |v.slots| == |v'.slots|
    requires PageBlocksOk(pageShift, nodes, mem, v, i)
    requires v'.role[i] == v.role[i] && nodes'[i].slab == nodes[i].slab && mem'[i] == mem[i]
    requires forall s :: 0 <= s < |v.slots| ==> (i in v'.slots[s] <==> i in v.slots[s])
    ensures PageBlocksOk(pageShift, nodes', mem', v', i)
  {
  }

  // ---- one more block of a listed page

  ghost predicate Taking(pageShift: nat, nodes: seq<Node>, mem: seq<seq<nat>>, v: View, s: nat, c: nat) {
    && PoolOk(pageShift, nodes, mem, v)
    && s < |v.slots| && v.slots[s] != []
    && v.slots[s][0] < |v.role| && v.role[v.slots[s][0]].Chunked? && v.role[v.slots[s][0]].shift == s + 3
    && ShiftOk(pageShift, s + 3)
    && c in AllBlocks(pageShift, s + 3) && c !in v.role[v.slots[s][0]].busy
    // in range, for what is said of the step
    && |mem| == |v.role| && |nodes| == |v.role| + 1 + |v.slots|
    && |mem[v.slots[s][0]]| == MaxWords(pageShift) && c < Capacity(pageShift, s + 3)
  }

  function TookNodes(pageShift: nat, nodes: seq<Node>, v: View, s: nat, c: nat): seq<Node>
    requires s < |v.slots| && v.slots[s] != [] && v.slots[s][0] < |nodes| && ShiftOk(pageShift, s + 3)
  {
    var p := v.slots[s][0];
    nodes[p := nodes[p].(slab := SlabWith(pageShift, nodes[p].slab, s + 3, c, true))]
  }

  function TookView(v: View, s: nat, c: nat): View
    requires s < |v.slots| && v.slots[s] != [] && v.slots[s][0] < |v.role| && v.role[v.slots[s][0]].Chunked?
  {
    var p := v.slots[s][0];
    v.(role := v.role[p := v.role[p].(busy := v.role[p].busy + {c})])
  }

  /** The first page on a size class list has a free block. */
  lemma FirstListed(pageShift: nat, nodes: seq<Node>, mem: seq<seq<nat>>, v: View, s: nat) returns (p: nat)
    requires PoolOk(pageShift, nodes, mem, v) && s < |v.slots| && v.slots[s] != [] && |nodes| == |v.role| + 1 + |v.slots|
    ensures p == v.slots[s][0] == nodes[|v.role| + 1 + s].next && p < |v.role|
    ensures v.role[p].Chunked? && v.role[p].shift == s + 3
    ensures ShiftOk(pageShift, s + 3)
    ensures BlocksOk(pageShift, nodes[p].slab, mem[p], s + 3, v.role[p].busy)
    ensures v.role[p].busy != AllBlocks(pageShift, s + 3)
    ensures forall c :: c in AllBlocks(pageShift, s + 3) && c !in v.role[p].busy ==> Taking(pageShift, nodes, mem, v, s, c)
  {
    hide BlocksOk, RolesOk, NodesOk, FreeListOk, SlotListsOk, Coalesced;
    p := v.slots[s][0];
    SlotLinks(nodes, v, s, 0);
    ListHead(nodes, v, s);
    assert PageBlocksOk(pageShift, nodes, mem, v, p) && p in v.slots[s];
  }

  lemma TakingBlocks(pageShift: nat, nodes: seq<Node>, mem: seq<seq<nat>>, v: View, s: nat, c: nat)
    requires Taking(pageShift, nodes, mem, v, s, c)
    ensures var p := v.slots[s][0];
            && |v.role| < |nodes| && |mem| == |v.role|
            && RowOk(pageShift, mem[p]) && c < Capacity(pageShift, s + 3)
            && BlocksOk(pageShift, nodes[p].slab, mem[p], s + 3, v.role[p].busy)
  {
    hide BlocksOk, RowOk, RolesOk, NodesOk, FreeListOk, SlotListsOk;
    assert PageBlocksOk(pageShift, nodes, mem, v, v.slots[s][0]);
  }

  /** The first step of handing out a block: its bit is set. */
  lemma TakeBit(pageShift: nat, nodes: seq<Node>, mem: seq<seq<nat>>, v: View, s: nat, c: nat, p: nat)
    requires Taking(pageShift, nodes, mem, v, s, c) && p == v.slots[s][0]
    ensures RowOk(pageShift, WordsWith(pageShift, mem[p], s + 3, c, true))
    ensures BlocksOk(pageShift, SlabWith(pageShift, nodes[p].slab, s + 3, c, true),
                     WordsWith(pageShift, mem[p], s + 3, c, true), s + 3, v.role[p].busy + {c})
    ensures v.role[p].busy + {c} == AllBlocks(pageShift, s + 3)
            <==> LooksFull(pageShift, SlabWith(pageShift, nodes[p].slab, s + 3, c, true), WordsWith(pageShift, mem[p], s + 3, c, true), s + 3)
  {
    TakingBlocks(pageShift, nodes, mem, v, s, c);
    hide Core, PoolOk, Taking, BlocksOk, RowOk, LooksFull, WordsWith, SlabWith, AllBlocks;
    BitWritten(pageShift, nodes[p].slab, mem[p], s + 3, v.role[p].busy, c);
    WordsWithRowOk(pageShift, mem[p], s + 3, c, true);
  }

  lemma BitWritten(pageShift: nat, slab: nat, words: seq<nat>, shift: nat, busy: set<nat>, c: nat)
    requires ShiftOk(pageShift, shift) && c in AllBlocks(pageShift, shift)
    requires BlocksOk(pageShift, slab, words, shift, busy)
    ensures var slab', words' := SlabWith(pageShift, slab, shift, c, true), WordsWith(pageShift, words, shift, c, true);
            && BlocksOk(pageShift, slab', words', shift, busy + {c})
            && (busy + {c} == AllBlocks(pageShift, shift) <==> LooksFull(pageShift, slab', words', shift))
  {
    WriteBlockOk(pageShift, slab, words, shift, busy, c, true);
    LooksFullMeans(pageShift, SlabWith(pageShift, slab, shift, c, true), WordsWith(pageShift, words, shift, c, true), shift, busy + {c});
  }

  lemma TakeCore(pageShift: nat, nodes: seq<Node>, mem: seq<seq<nat>>, v: View, s: nat, c: nat)
    requires Taking(pageShift, nodes, mem, v, s, c)
    ensures Listed(TookNodes(pageShift, nodes, v, s, c), TookView(v, s, c), s, 0)
    ensures var p := v.slots[s][0]; 0 <= nodes[p].next < |nodes| && 0 <= nodes[p].prev < |nodes| && nodes[p].next != p && nodes[p].prev != p
  {
    var p := v.slots[s][0];
    RewriteKeepsCore(nodes, v, p, SlabWith(pageShift, nodes[p].slab, s + 3, c, true), v.role[p].busy + {c});
    SlotLinks(nodes, v, s, 0);
  }

  /** The page keeps a free block and stays listed. */
  lemma TakeStays(pageShift: nat, nodes: seq<Node>, mem: seq<seq<nat>>, v: View, s: nat, c: nat)
    requires Taking(pageShift, nodes, mem, v, s, c)
    requires TookView(v, s, c).role[v.slots[s][0]].busy != AllBlocks(pageShift, s + 3)
    ensures var p := v.slots[s][0];
            && |mem[p]| == MaxWords(pageShift) && c < Capacity(pageShift, s + 3)
            && PoolOk(pageShift, TookNodes(pageShift, nodes, v, s, c),
                      mem[p := WordsWith(pageShift, mem[p], s + 3, c, true)], TookView(v, s, c))
  {
    hide BlocksOk, AllBlocks, RolesOk, NodesOk, FreeListOk, SlotListsOk;
    TakeBit(pageShift, nodes, mem, v, s, c, v.slots[s][0]);
    TakeCore(pageShift, nodes, mem, v, s, c);
    var p := v.slots[s][0];
    var m, v1 := TookNodes(pageShift, nodes, v, s, c), TookView(v, s, c);
    var mem' := mem[p := WordsWith(pageShift, mem[p], s + 3, c, true)];
    assert p in v.slots[s];
    TakenIsNotEmpty(v, s, c);
    forall i | 0 <= i < |v.role| ensures PageBlocksOk(pageShift, m, mem', v1, i) {
      assert PageBlocksOk(pageShift, nodes, mem, v, i);
      if i != p {
        PageUntouched(pageShift, nodes, mem, v, m, mem', v1, i);
      }
    }
  }

  /** The page has no free block left and leaves its list. */
  lemma TakeLeaves(pageShift: nat, nodes: seq<Node>, mem: seq<seq<nat>>, v: View, s: nat, c: nat)
    requires Taking(pageShift, nodes, mem, v, s, c)
    requires TookView(v, s, c).role[v.slots[s][0]].busy == AllBlocks(pageShift, s + 3)
    ensures var p := v.slots[s][0]; var m := TookNodes(pageShift, nodes, v, s, c);
            && |mem[p]| == MaxWords(pageShift) && c < Capacity(pageShift, s + 3)
            && 0 <= m[p].next < |m| && 0 <= m[p].prev < |m|
            && PoolOk(pageShift, Unlisted(m, p), mem[p := WordsWith(pageShift, mem[p], s + 3, c, true)],
                      UnlistedView(TookView(v, s, c), s, 0))
  {
    hide BlocksOk, AllBlocks, RolesOk, NodesOk, FreeListOk, SlotListsOk;
    TakeBit(pageShift, nodes, mem, v, s, c, v.slots[s][0]);
    TakeCore(pageShift, nodes, mem, v, s, c);
    var p := v.slots[s][0];
    var m, v1 := TookNodes(pageShift, nodes, v, s, c), TookView(v, s, c);
    var mem' := mem[p := WordsWith(pageShift, mem[p], s + 3, c, true)];
    UnlistKeepsCore(m, v1, s, 0);
    WithoutMembers(m, v1, s, 0);
    var nodes', v' := Unlisted(m, p), UnlistedView(v1, s, 0);
    forall i | 0 <= i < |v.role| ensures PageBlocksOk(pageShift, nodes', mem', v', i) {
      UnlistedKeepsSlab(m, v1, s, 0, i);
      if i != p {
        assert PageBlocksOk(pageShift, nodes, mem, v, i);
        PageUntouched(pageShift, nodes, mem, v, nodes', mem', v', i);
      } else {
        assert PageBlocksOk(pageShift, nodes, mem, v, p);
        TakenIsNotEmpty(v, s, c);
      }
    }
  }

  lemma TakenIsNotEmpty(v: View, s: nat, c: nat)
    requires s < |v.slots| && v.slots[s] != [] && v.slots[s][0] < |v.role| && v.role[v.slots[s][0]].Chunked?
    ensures TookView(v, s, c).role[v.slots[s][0]].busy != {}
  {
    assert c in TookView(v, s, c).role[v.slots[s][0]].busy;
  }

  lemma UnlistedKeepsSlab(nodes: seq<Node>, v: View, s: nat, k: nat, i: nat)
    requires Listed(nodes, v, s, k) && i < |nodes|
    ensures var p := v.slots[s][k];
            && p < |v.role| && 0 <= nodes[p].next < |nodes| && 0 <= nodes[p].prev < |nodes|
            && Unlisted(nodes, p)[i].slab == nodes[i].slab
  {
    SlotLinks(nodes, v, s, k);
  }

  lemma TookFree(v: View, s: nat, c: nat)
    requires s < |v.slots| && v.slots[s] != [] && v.slots[s][0] < |v.role| && v.role[v.slots[s][0]].Chunked?
    ensures FreeSet(TookView(v, s, c).role) == FreeSet(v.role)
  {
  }

  lemma TakeGains(pageShift: nat, role: seq<Role>, p: nat, c: nat)
    requires PageShiftOk(pageShift) && p < |role| && role[p].Chunked? && ShiftOk(pageShift, role[p].shift) && c !in role[p].busy
    ensures Gains(pageShift, role, role[p := role[p].(busy := role[p].busy + {c})], Piece(p, role[p].shift, c))
  {
  }

  // ---- one block fewer

  ghost predicate Giving(pageShift: nat, nodes: seq<Node>, mem: seq<seq<nat>>, v: View, p: nat, c: nat) {
    && PoolOk(pageShift, nodes, mem, v)
    && p < |v.role| && v.role[p].Chunked? && ShiftOk(pageShift, v.role[p].shift) && c in v.role[p].busy
  }

  /** A listed page keeps its links when the bit of one block is cleared. */
  function GaveNodes(pageShift: nat, nodes: seq<Node>, p: nat, shift: nat, c: nat): seq<Node>
    requires p < |nodes| && ShiftOk(pageShift, shift)
  {
    nodes[p := nodes[p].(slab := SlabWith(pageShift, nodes[p].slab, shift, c, false))]
  }

  function GaveView(v: View, p: nat, c: nat): View
    requires p < |v.role| && v.role[p].Chunked?
  {
    v.(role := v.role[p := v.role[p].(busy := v.role[p].busy - {c})])
  }

  /** Before the bit is cleared, a full page goes back to the front of its list. */
  lemma GiveRelists(pageShift: nat, nodes: seq<Node>, mem: seq<seq<nat>>, v: View, p: nat, c: nat)
    requires Giving(pageShift, nodes, mem, v, p, c) && v.role[p].busy == AllBlocks(pageShift, v.role[p].shift)
    ensures Relistable(nodes, v, p) && nodes[p].next == NULL
  {
    hide BlocksOk, AllBlocks, RowOk, Range;
    assert PageBlocksOk(pageShift, nodes, mem, v, p) && Core(nodes, v, NULL);
    hide Core, PoolOk, Giving;
    UnlistedIsLoose(nodes, v, p);
  }

  lemma UnlistedIsLoose(nodes: seq<Node>, v: View, p: nat)
    requires Core(nodes, v, NULL) && p < |v.role| && v.role[p].Chunked?
    requires 3 <= v.role[p].shift < |v.slots| + 3 && p !in v.slots[v.role[p].shift - 3]
    ensures p < |nodes| && nodes[p].next == NULL
  {
    assert ChunkedOk(nodes, v.role, v.slots, v.exact, p);
    hide RolesOk, NodesOk, FreeListOk, Coalesced, Linked;
  }

  lemma GiveListed(pageShift: nat, nodes: seq<Node>, mem: seq<seq<nat>>, v: View, p: nat, c: nat) returns (k: nat)
    requires Giving(pageShift, nodes, mem, v, p, c) && v.role[p].busy != AllBlocks(pageShift, v.role[p].shift)
    ensures 3 <= v.role[p].shift && Listed(nodes, v, v.role[p].shift - 3, k) && v.slots[v.role[p].shift - 3][k] == p
    ensures nodes[p].next != NULL
  {
    hide BlocksOk, Linked, FreeListOk, NodesOk, RolesOk;
    assert PageBlocksOk(pageShift, nodes, mem, v, p);
    var s := v.role[p].shift - 3;
    k :| 0 <= k < |v.slots[s]| && v.slots[s][k] == p;
    SlotLinks(nodes, v, s, k);
  }

  lemma BitCleared(pageShift: nat, slab: nat, words: seq<nat>, shift: nat, busy: set<nat>, c: nat)
    requires ShiftOk(pageShift, shift) && c in busy
    requires BlocksOk(pageShift, slab, words, shift, busy)
    ensures c < Capacity(pageShift, shift)
    ensures var slab', words' := SlabWith(pageShift, slab, shift, c, false), WordsWith(pageShift, words, shift, c, false);
            && BlocksOk(pageShift, slab', words', shift, busy - {c})
            && (busy - {c} == {} <==> LooksEmpty(pageShift, slab', words', shift))
  {
    WriteBlockOk(pageShift, slab, words, shift, busy, c, false);
    LooksEmptyMeans(pageShift, SlabWith(pageShift, slab, shift, c, false), WordsWith(pageShift, words, shift, c, false), shift, busy - {c});
  }

  /** The pool after a block came back, seen from pages nodes1 and view v1 in which p is
      listed: consistent when the page keeps another block. */
  lemma GivePoolOk(pageShift: nat, nodes: seq<Node>, mem: seq<seq<nat>>, v: View, p: nat, c: nat, nodes1: seq<Node>, v1: View)
    requires Giving(pageShift, nodes, mem, v, p, c)
    requires Core(nodes1, v1, NULL) && |nodes1| == |nodes|
    requires v1 == if v.role[p].busy == AllBlocks(pageShift, v.role[p].shift) then RelistedView(v, p) else v
    requires forall i :: 0 <= i < |v.role| ==> nodes1[i].slab == nodes[i].slab
    ensures |mem[p]| == MaxWords(pageShift) && c < Capacity(pageShift, v.role[p].shift)
    ensures Core(GaveNodes(pageShift, nodes1, p, v.role[p].shift, c), GaveView(v1, p, c), NULL)
    ensures var words' := WordsWith(pageShift, mem[p], v.role[p].shift, c, false);
            && RowOk(pageShift, words')
            && (LooksEmpty(pageShift, SlabWith(pageShift, nodes1[p].slab, v.role[p].shift, c, false), words', v.role[p].shift)
                <==> v.role[p].busy == {c})
    ensures v.role[p].busy != {c} ==>
      PoolOk(pageShift, GaveNodes(pageShift, nodes1, p, v.role[p].shift, c),
             mem[p := WordsWith(pageShift, mem[p], v.role[p].shift, c, false)], GaveView(v1, p, c))
  {
    assert PageBlocksOk(pageShift, nodes, mem, v, p);
    var shift, busy := v.role[p].shift, v.role[p].busy;
    BitCleared(pageShift, nodes[p].slab, mem[p], shift, busy, c);
    WordsWithRowOk(pageShift, mem[p], shift, c, false);
    RewriteKeepsCore(nodes1, v1, p, SlabWith(pageShift, nodes1[p].slab, shift, c, false), busy - {c});
    assert busy - {c} == {} <==> busy == {c};
    if busy != {c} {
      GivePagesOk(pageShift, nodes, mem, v, p, c, nodes1, v1);
    }
  }

  /** Every page stays consistent. */
  lemma GivePagesOk(pageShift: nat, nodes: seq<Node>, mem: seq<seq<nat>>, v: View, p: nat, c: nat, nodes1: seq<Node>, v1: View)
    requires Giving(pageShift, nodes, mem, v, p, c) && v.role[p].busy != {c} && |nodes1| == |nodes|
    requires v1 == if v.role[p].busy == AllBlocks(pageShift, v.role[p].shift) then RelistedView(v, p) else v
    requires forall i :: 0 <= i < |v.role| ==> nodes1[i].slab == nodes[i].slab
    requires |mem[p]| == MaxWords(pageShift) && c < Capacity(pageShift, v.role[p].shift)
    ensures var nodes', v' := GaveNodes(pageShift, nodes1, p, v.role[p].shift, c), GaveView(v1, p, c);
            var mem' := mem[p := WordsWith(pageShift, mem[p], v.role[p].shift, c, false)];
            |nodes'| >= |v'.role| == |mem'| && forall i :: 0 <= i < |v'.role| ==> PageBlocksOk(pageShift, nodes', mem', v', i)
  {
    assert PageBlocksOk(pageShift, nodes, mem, v, p);
    var shift, busy := v.role[p].shift, v.role[p].busy;
    BitCleared(pageShift, nodes[p].slab, mem[p], shift, busy, c);
    var nodes', v' := GaveNodes(pageShift, nodes1, p, shift, c), GaveView(v1, p, c);
    var mem' := mem[p := WordsWith(pageShift, mem[p], shift, c, false)];
    assert |v.role| <= |nodes| && |mem| == |v.role| && c in AllBlocks(pageShift, shift);
    hide Core, BlocksOk, AllBlocks, SlabWith, WordsWith, LooksEmpty;
    forall i | 0 <= i < |v.role| ensures PageBlocksOk(pageShift, nodes', mem', v', i) {
      if i != p {
        assert PageBlocksOk(pageShift, nodes, mem, v, i);
        GiveOthersListed(v, p, i);
        PageUntouched(pageShift, nodes, mem, v, nodes', mem', v', i);
      } else {
        GiveStaysListed(pageShift, nodes, mem, v, p, c, v1);
        GiveOwnPage(pageShift, busy, c, nodes', mem', v', p, shift);
      }
    }
  }

  lemma GiveStaysListed(pageShift: nat, nodes: seq<Node>, mem: seq<seq<nat>>, v: View, p: nat, c: nat, v1: View)
    requires Giving(pageShift, nodes, mem, v, p, c)
    requires v1 == if v.role[p].busy == AllBlocks(pageShift, v.role[p].shift) then RelistedView(v, p) else v
    ensures |v1.slots| == |v.slots| && p in v1.slots[v.role[p].shift - 3]
  {
    hide BlocksOk, Linked, FreeListOk, NodesOk, RolesOk, SlotListsOk, Range;
    assert PageBlocksOk(pageShift, nodes, mem, v, p);
    var s := v.role[p].shift - 3;
    assert v1.slots[s] == v.slots[s] || v1.slots[s][0] == p;
  }

  lemma GiveOthersListed(v: View, p: nat, i: nat)
    requires p < |v.role| && v.role[p].Chunked? && 3 <= v.role[p].shift < |v.slots| + 3 && i != p
    ensures forall s :: 0 <= s < |v.slots| ==> (i in RelistedView(v, p).slots[s] <==> i in v.slots[s])
  {
  }

  lemma NotOnly(busy: set<nat>, c: nat)
    requires c in busy && busy != {c}
    ensures busy - {c} != {}
  {
    var d :| d in busy && d != c;
    assert d in busy - {c};
  }

  lemma GiveOwnPage(pageShift: nat, busy: set<nat>, c: nat, nodes': seq<Node>, mem': seq<seq<nat>>, v': View, p: nat, shift: nat)
    requires PageShiftOk(pageShift) && p < |v'.role| == |mem'| && |v'.role| <= |nodes'| && ShiftOk(pageShift, shift)
    requires c in busy && busy != {c} && c in AllBlocks(pageShift, shift)
    requires v'.role[p] == Chunked(shift, busy - {c})
    requires BlocksOk(pageShift, nodes'[p].slab, mem'[p], shift, busy - {c})
    requires shift - 3 < |v'.slots| && p in v'.slots[shift - 3]
    ensures PageBlocksOk(pageShift, nodes', mem', v', p)
  {
    hide BlocksOk, AllBlocks, Range;
    assert c !in v'.role[p].busy;
    NotOnly(busy, c);
  }

  /** The page whose last block came back goes to the free runs. */
  lemma ReleasePoolOk(pageShift: nat, nodes: seq<Node>, mem: seq<seq<nat>>, v: View, p: nat, pages: nat,
                      nodes': seq<Node>, mem': seq<seq<nat>>, v': View, k: nat)
    requires PoolOk(pageShift, nodes, mem, v) && p < |v.role|
    requires Core(nodes', v', NULL) && |nodes'| == |nodes| && v'.exact == v.exact && |v'.slots| == |v.slots|
    requires FreesOnly(v.role, v'.role, p, pages) && 1 <= pages
    requires KeepsSlabs(nodes, nodes', v.role, p)
    requires |mem'| == |mem| && (forall i :: 0 <= i < |mem| ==> RowOk(pageShift, mem'[i]) && (i != p ==> mem'[i] == mem[i]))
    requires forall s, i: nat :: 0 <= s < |v.slots| && i != p ==> (i in v'.slots[s] <==> i in v.slots[s])
    ensures PoolOk(pageShift, nodes', mem', v')
  {
    forall i | 0 <= i < |v.role| ensures PageBlocksOk(pageShift, nodes', mem', v', i) {
      assert PageBlocksOk(pageShift, nodes, mem, v, i);
      if v'.role[i].Chunked? {
        PageUntouched(pageShift, nodes, mem, v, nodes', mem', v', i);
      }
    }
  }

  /** The counters when one page changes its blocks, is cut, or goes back. */
  lemma RoleCounts(role: seq<Role>, p: nat, r: Role, cnt: Counter, shift: nat)
    requires p < |role|
    ensures Sum(cnt, shift, role[p := r]) == Sum(cnt, shift, role) - Weight(cnt, shift, role[p]) + Weight(cnt, shift, r)
  {
    SumChange(cnt, shift, role, role[p := r], p);
  }

  lemma ReleaseCounts(role: seq<Role>, role': seq<Role>, p: nat, pages: nat, cnt: Counter, shift: nat)
    requires FreesOnly(role, role', p, pages) && 1 <= pages && p < |role|
    requires forall i :: p < i < p + pages && i < |role| ==> !role[i].Chunked?
    ensures Sum(cnt, shift, role') == Sum(cnt, shift, role) - Weight(cnt, shift, role[p])
  {
    SumChange(cnt, shift, role, role', p);
  }

  // ---- whole pages

  lemma TakePagesPoolOk(pageShift: nat, nodes: seq<Node>, mem: seq<seq<nat>>, v: View, k: nat, pages: nat)
    requires PoolOk(pageShift, nodes, mem, v) && Takes(nodes, v, k, pages)
    ensures PoolOk(pageShift, TakenNodes(nodes, v, k, pages), mem, TakenView(v, k, pages))
  {
    TakesDefined(nodes, v, k, pages);
    TakenKeepsCore(nodes, v, k, pages);
    var nodes', v' := TakenNodes(nodes, v, k, pages), TakenView(v, k, pages);
    forall i | 0 <= i < |v.role| ensures PageBlocksOk(pageShift, nodes', mem, v', i) {
      assert PageBlocksOk(pageShift, nodes, mem, v, i);
      OutsideRun(v.role, v.order[k], i);
      if v'.role[i].Chunked? {
        TakenFrame(nodes, v, k, pages, i);
        PageUntouched(pageShift, nodes, mem, v, nodes', mem, v', i);
      }
    }
  }

  lemma TakePagesGains(pageShift: nat, role: seq<Role>, p: nat, pages: nat)
    requires PageShiftOk(pageShift) && RolesOk(role) && p < |role| && role[p].Free? && 1 <= pages <= role[p].len
    ensures Gains(pageShift, role, Carved(role, p, pages), Pages(p, pages))
    ensures forall cnt, shift :: Sum(cnt, shift, Carved(role, p, pages)) == Sum(cnt, shift, role)
  {
    var role' := Carved(role, p, pages);
    assert RoleOk(role, p);
    forall i | 0 <= i < |role| ensures i == p || (role'[i] == role[i] || (!role'[i].Run? && !role'[i].Chunked? && IsFree(role[i]))) {
      OutsideRun(role, p, i);
    }
    forall cnt, shift ensures Sum(cnt, shift, role') == Sum(cnt, shift, role) {
      SumSame(cnt, shift, role, role');
    }
  }

  /** Releasing pages makes exactly the block on them dead. */
  lemma ReleaseLoses(pageShift: nat, role: seq<Role>, role': seq<Role>, p: nat, pages: nat, b: Block)
    requires PageShiftOk(pageShift) && RolesOk(role) && FreesOnly(role, role', p, pages) && p < |role|
    requires Live(pageShift, role, b) && FirstPage(b) == p
    requires role[p] == Run(pages) || (pages == 1 && role[p].Chunked? && b.Piece? && role[p].busy == {b.index})
    ensures Gains(pageShift, role', role, b)
  {
    assert RoleOk(role, p);
    forall i | 0 <= i < |role| ensures p < i < p + pages ==> role[i].RunBody? {
      if role[p].Run? {
        OutsideRun(role, p, i);
      }
    }
  }

  // ---- a fresh page cut into blocks

  lemma CutFree(v: View, p: nat, s: nat, busy: set<nat>)
    requires p < |v.role| && s < |v.slots| && v.role[p] == Run(1)
    ensures FreeSet(CutView(v, p, s, busy).role) == FreeSet(v.role)
  {
  }

  lemma CutPoolOk(pageShift: nat, nodes: seq<Node>, mem: seq<seq<nat>>, v: View, p: nat, s: nat, words: seq<nat>)
    requires PoolOk(pageShift, nodes, mem, v) && Cuttable(nodes, v, p, s) && ShiftOk(pageShift, s + 3)
    requires RowOk(pageShift, words) && FreshWords(pageShift, words, s + 3)
    ensures PoolOk(pageShift, CutNodes(nodes, v, p, s, FreshSlab(pageShift, s + 3)), mem[p := words],
                   CutView(v, p, s, {Reserved(pageShift, s + 3)}))
  {
    hide Core, FreshWords, BlocksOk, FreshSlab, AllBlocks;
    var shift := s + 3;
    CutKeepsCore(nodes, v, p, s, FreshSlab(pageShift, shift), {Reserved(pageShift, shift)});
    FreshBlocksOk(pageShift, words, shift);
    var nodes', v' := CutNodes(nodes, v, p, s, FreshSlab(pageShift, shift)), CutView(v, p, s, {Reserved(pageShift, shift)});
    var mem' := mem[p := words];
    forall i | 0 <= i < |v.role| ensures PageBlocksOk(pageShift, nodes', mem', v', i) {
      assert PageBlocksOk(pageShift, nodes, mem, v, i);
      if i != p {
        PageUntouched(pageShift, nodes, mem, v, nodes', mem', v', i);
      } else {
        OneIsNotAll(pageShift, shift);
      }
    }
  }

  /** A fresh page has more than the one block it hands out. */
  lemma OneIsNotAll(pageShift: nat, shift: nat)
    requires ShiftOk(pageShift, shift)
    ensures {Reserved(pageShift, shift)} < AllBlocks(pageShift, shift)
  {
    Geometry(pageShift, shift);
    if shift < ExactShift(pageShift) {
      SmallGeometry(pageShift, shift);
    }
    assert Reserved(pageShift, shift) + 1 in AllBlocks(pageShift, shift);
  }

  lemma CutGains(pageShift: nat, role: seq<Role>, p: nat, shift: nat, c: nat, before: seq<Role>)
    requires PageShiftOk(pageShift) && ShiftOk(pageShift, shift) && p < |role| && role[p] == Run(1)
    requires Gains(pageShift, before, role, Pages(p, 1)) && |before| == |role|
    requires !before[p].Chunked?
    ensures Gains(pageShift, before, role[p := Chunked(shift, {c})], Piece(p, shift, c))
  {
    var role' := role[p := Chunked(shift, {c})];
    forall b ensures b != Piece(p, shift, c) ==> (Live(pageShift, role', b) <==> Live(pageShift, before, b)) {
      assert b != Pages(p, 1) ==> (Live(pageShift, role, b) <==> Live(pageShift, before, b));
    }
  }

  // ---- the statistics after each step

  lemma StatsTaken(pageShift: nat, used: seq<nat>, total: seq<nat>, role: seq<Role>, p: nat, c: nat)
    requires PageShiftOk(pageShift) && StatsOk(pageShift, used, total, role)
    requires p < |role| && role[p].Chunked? && ShiftOk(pageShift, role[p].shift) && c !in role[p].busy
    ensures var s := role[p].shift - 3;
            StatsOk(pageShift, used[s := used[s] + 1], total, role[p := role[p].(busy := role[p].busy + {c})])
  {
    hide Sum, PerPage;
    forall cnt, shift {
      RoleCounts(role, p, role[p].(busy := role[p].busy + {c}), cnt, shift);
    }
  }

  lemma StatsGiven(pageShift: nat, used: seq<nat>, total: seq<nat>, role: seq<Role>, p: nat, c: nat)
    requires PageShiftOk(pageShift) && StatsOk(pageShift, used, total, role)
    requires p < |role| && role[p].Chunked? && ShiftOk(pageShift, role[p].shift) && c in role[p].busy
    ensures var s := role[p].shift - 3;
            && used[s] >= 1
            && StatsOk(pageShift, used[s := used[s] - 1], total, role[p := role[p].(busy := role[p].busy - {c})])
  {
    hide Sum, PerPage;
    forall cnt, shift {
      RoleCounts(role, p, role[p].(busy := role[p].busy - {c}), cnt, shift);
    }
  }

  lemma StatsCut(pageShift: nat, used: seq<nat>, total: seq<nat>, role: seq<Role>, p: nat, shift: nat, c: nat)
    requires PageShiftOk(pageShift) && StatsOk(pageShift, used, total, role)
    requires p < |role| && !role[p].Chunked? && ShiftOk(pageShift, shift)
    ensures var s := shift - 3;
            StatsOk(pageShift, used[s := used[s] + 1], total[s := total[s] + PerPage(pageShift, shift)], role[p := Chunked(shift, {c})])
  {
    hide Sum, PerPage;
    forall cnt, t {
      RoleCounts(role, p, Chunked(shift, {c}), cnt, t);
    }
  }

  lemma StatsSame(pageShift: nat, used: seq<nat>, total: seq<nat>, role: seq<Role>, role': seq<Role>)
    requires PageShiftOk(pageShift) && StatsOk(pageShift, used, total, role)
    requires forall cnt, shift :: Sum(cnt, shift, role') == Sum(cnt, shift, role)
    ensures StatsOk(pageShift, used, total, role')
  {
  }

  /** The statistics when pages go back: an emptied page's capacity leaves its class. */
  lemma StatsReleased(pageShift: nat, used: seq<nat>, total: seq<nat>, role: seq<Role>, role': seq<Role>, p: nat, pages: nat)
    requires PageShiftOk(pageShift) && StatsOk(pageShift, used, total, role)
    requires FreesOnly(role, role', p, pages) && 1 <= pages && p < |role|
    requires forall i :: p < i < p + pages && i < |role| ==> !role[i].Chunked?
    requires role[p].Chunked? ==> role[p].busy == {} && ShiftOk(pageShift, role[p].shift)
    ensures if role[p].Chunked?
            then var s := role[p].shift - 3; var per := PerPage(pageShift, role[p].shift);
                 total[s] >= per && StatsOk(pageShift, used, total[s := total[s] - per], role')
            else StatsOk(pageShift, used, total, role')
  {
    hide Sum, PerPage;
    forall cnt, shift {
      ReleaseCounts(role, role', p, pages, cnt, shift);
    }
  }

  /** A size class has a listed page exactly when one of its pages has a free block. */
  lemma ListedIffFreeBlock(pageShift: nat, nodes: seq<Node>, mem: seq<seq<nat>>, v: View, s: nat)
    requires PoolOk(pageShift, nodes, mem, v) && s < |v.slots| && ShiftOk(pageShift, s + 3)
    ensures v.slots[s] != [] <==> HasFreeBlock(pageShift, v.role, s + 3)
  {
    hide Linked, BlocksOk, FreeListOk, NodesOk, RolesOk;
    if v.slots[s] != [] {
      var p := v.slots[s][0];
      assert SlotOk(nodes, v.role, s, v.slots[s]) && PageBlocksOk(pageShift, nodes, mem, v, p) && p in v.slots[s];
    }
    if HasFreeBlock(pageShift, v.role, s + 3) {
      var i :| 0 <= i < |v.role| && v.role[i].Chunked? && v.role[i].shift == s + 3 && v.role[i].busy != AllBlocks(pageShift, s + 3);
      assert PageBlocksOk(pageShift, nodes, mem, v, i);
    }
  }

  /** The head of a size class points to itself exactly when the list is empty; the first
      page never points to itself. */
  lemma ListHeadOfPool(pageShift: nat, nodes: seq<Node>, mem: seq<seq<nat>>, v: View, s: nat)
    requires PoolOk(pageShift, nodes, mem, v) && s < |v.slots| && |nodes| == |v.role| + 1 + |v.slots|
    ensures var page := nodes[|v.role| + 1 + s].next;
            0 <= page < |nodes| && (nodes[page].next == page <==> v.slots[s] == [])
  {
    ListHead(nodes, v, s);
    if v.slots[s] != [] {
      SlotLinks(nodes, v, s, 0);
    }
  }

  lemma PoolIsCore(pageShift: nat, nodes: seq<Node>, mem: seq<seq<nat>>, v: View)
    requires PoolOk(pageShift, nodes, mem, v)
    ensures Core(nodes, v, NULL)
  {
  }

  /** The test for a page that is on no list: no free block left. */
  lemma FullTest(pageShift: nat, nodes: seq<Node>, mem: seq<seq<nat>>, v: View, p: nat, c: nat)
    requires Giving(pageShift, nodes, mem, v, p, c)
    ensures var shift := v.role[p].shift;
            var full := if shift == ExactShift(pageShift) then nodes[p].slab == WORD_BUSY else nodes[p].next == NULL;
            && (full <==> v.role[p].busy == AllBlocks(pageShift, shift))
            && (full ==> Relistable(nodes, v, p))
  {
    assert PageBlocksOk(pageShift, nodes, mem, v, p);
    var shift := v.role[p].shift;
    LooksFullMeans(pageShift, nodes[p].slab, mem[p], shift, v.role[p].busy);
    if v.role[p].busy == AllBlocks(pageShift, shift) {
      GiveRelists(pageShift, nodes, mem, v, p, c);
    } else {
      var k := GiveListed(pageShift, nodes, mem, v, p, c);
    }
  }

  /** The size class lists once the page is on its list. */
  ghost function ListedSlots(pageShift: nat, v: View, p: nat): seq<seq<nat>>
    requires p < |v.role| && v.role[p].Chunked? && ShiftOk(pageShift, v.role[p].shift) && |v.slots| == pageShift - 3
  {
    if v.role[p].busy == AllBlocks(pageShift, v.role[p].shift) then RelistedView(v, p).slots else v.slots
  }

  lemma StillListed(pageShift: nat, nodes: seq<Node>, mem: seq<seq<nat>>, v: View, p: nat, c: nat) returns (k: nat)
    requires Giving(pageShift, nodes, mem, v, p, c)
    ensures var list := ListedSlots(pageShift, v, p)[v.role[p].shift - 3]; k < |list| && list[k] == p
  {
    if v.role[p].busy == AllBlocks(pageShift, v.role[p].shift) {
      k := 0;
    } else {
      k := GiveListed(pageShift, nodes, mem, v, p, c);
    }
  }

  lemma GivenFree(role: seq<Role>, p: nat, c: nat)
    requires p < |role| && role[p].Chunked?
    ensures FreeSet(role[p := role[p].(busy := role[p].busy - {c})]) == FreeSet(role)
  {
  }

  lemma GiveLoses(pageShift: nat, role: seq<Role>, p: nat, c: nat)
    requires PageShiftOk(pageShift) && p < |role| && role[p].Chunked? && ShiftOk(pageShift, role[p].shift) && c in role[p].busy
    ensures Gains(pageShift, role[p := role[p].(busy := role[p].busy - {c})], role, Piece(p, role[p].shift, c))
  {
  }

  lemma ReleasedOnly(role: seq<Role>, role1: seq<Role>, role2: seq<Role>, p: nat)
    requires p < |role| && role[p].Chunked? && role1 == role[p := role[p].(busy := {})] && FreesOnly(role1, role2, p, 1)
    ensures FreesOnly(role, role2, p, 1)
  {
  }

  lemma KeepsSlabsTwice(nodes: seq<Node>, nodes1: seq<Node>, nodes2: seq<Node>, role: seq<Role>, role1: seq<Role>, p: nat)
    requires p < |role| && role[p].Chunked? && role1 == role[p := role[p].(busy := {})]
    requires KeepsSlabs(nodes, nodes1, role, p) && KeepsSlabs(nodes1, nodes2, role1, p)
    ensures KeepsSlabs(nodes, nodes2, role, p)
  {
  }

  lemma RowsKept(pageShift: nat, mem: seq<seq<nat>>, mem2: seq<seq<nat>>, p: nat)
    requires PageShiftOk(pageShift) && |mem2| == |mem| && p < |mem|
    requires (forall i :: 0 <= i < |mem| ==> RowOk(pageShift, mem[i])) && RowOk(pageShift, mem2[p])
    requires forall i :: 0 <= i < |mem| && i != p ==> mem2[i] == mem[i]
    ensures forall i :: 0 <= i < |mem| ==> RowOk(pageShift, mem2[i])
  {
  }

  lemma CoreRoles(nodes: seq<Node>, v: View)
    requires Core(nodes, v, NULL)
    ensures RolesOk(v.role) && |nodes| == |v.role| + 1 + |v.slots|
  {
  }

  lemma ListedMembers(pageShift: nat, v: View, p: nat)
    requires p < |v.role| && v.role[p].Chunked? && ShiftOk(pageShift, v.role[p].shift) && |v.slots| == pageShift - 3
    ensures |ListedSlots(pageShift, v, p)| == |v.slots|
    ensures forall t, i: nat :: 0 <= t < |v.slots| && i != p ==> (i in ListedSlots(pageShift, v, p)[t] <==> i in v.slots[t])
  {
    hide AllBlocks;
    var s := v.role[p].shift - 3;
    forall i: nat | i != p ensures i in [p] + v.slots[s] <==> i in v.slots[s] {
    }
  }

  /** Only the page itself leaves a list. */
  lemma EmptiedSlots(slots: seq<seq<nat>>, slots1: seq<seq<nat>>, slots2: seq<seq<nat>>, p: nat, s: nat, k: nat)
    requires |slots1| == |slots| && forall t, i: nat :: 0 <= t < |slots| && i != p ==> (i in slots1[t] <==> i in slots[t])
    requires s < |slots1| && k < |slots1[s]| && slots1[s][k] == p && Distinct(slots1[s])
    requires slots2 == slots1[s := Without(slots1[s], k)]
    ensures |slots2| == |slots| && forall t, i: nat :: 0 <= t < |slots| && i != p ==> (i in slots2[t] <==> i in slots[t])
  {
    WithoutDistinct(slots1[s], k);
  }

  /** The pool after a page's last block came back and the page was released. */
  lemma EmptiedPool(pageShift: nat, nodes: seq<Node>, mem: seq<seq<nat>>, v: View, p: nat, c: nat,
                    nodes1: seq<Node>, role1: seq<Role>, nodes2: seq<Node>, mem2: seq<seq<nat>>, v2: View, k: nat)
    requires Giving(pageShift, nodes, mem, v, p, c) && v.role[p].busy == {c}
    requires role1 == v.role[p := v.role[p].(busy := {})]
    requires Core(nodes2, v2, NULL) && |nodes2| == |nodes| && v2.exact == v.exact
    requires FreesOnly(role1, v2.role, p, 1)
    requires KeepsSlabs(nodes, nodes1, v.role, p) && KeepsSlabs(nodes1, nodes2, role1, p)
    requires |mem2| == |mem| && RowOk(pageShift, mem2[p]) && forall i :: 0 <= i < |mem| && i != p ==> mem2[i] == mem[i]
    requires var s := v.role[p].shift - 3; var slots1 := ListedSlots(pageShift, v, p);
             k < |slots1[s]| && slots1[s][k] == p && v2.slots == slots1[s := Without(slots1[s], k)] && Distinct(slots1[s])
    ensures PoolOk(pageShift, nodes2, mem2, v2)
    ensures Gains(pageShift, v2.role, v.role, Piece(p, v.role[p].shift, c))
  {
    hide Core, PageBlocksOk, BlocksOk, RowOk, FreesOnly, KeepsSlabs, Gains;
    ListedMembers(pageShift, v, p);
    EmptiedSlots(v.slots, ListedSlots(pageShift, v, p), v2.slots, p, v.role[p].shift - 3, k);
    hide ListedSlots, Without, Distinct;
    ReleasedOnly(v.role, role1, v2.role, p);
    KeepsSlabsTwice(nodes, nodes1, nodes2, v.role, role1, p);
    RowsKept(pageShift, mem, mem2, p);
    PoolIsCore(pageShift, nodes, mem, v);
    CoreRoles(nodes, v);
    ReleasePoolOk(pageShift, nodes, mem, v, p, 1, nodes2, mem2, v2, k);
    ReleaseLoses(pageShift, v.role, v2.role, p, 1, Piece(p, v.role[p].shift, c));
  }

  // ---- a bit of the bitmap's own blocks

  /** Clearing the bit of one of the blocks that hold a page's bitmap: the page does not look empty,
      and its words agree with no set of blocks of that size any more. */
  lemma HitClears(pageShift: nat, nodes: seq<Node>, mem: seq<seq<nat>>, v: View, p: nat, d: nat, c: nat)
    requires Giving(pageShift, nodes, mem, v, p, d) && c < Reserved(pageShift, v.role[p].shift)
    ensures var shift := v.role[p].shift;
            && KindAt(pageShift, shift) == Small && Low(nodes[p].slab, 4) == shift && nodes[p].kind == Small
            && c < Capacity(pageShift, shift) && |mem[p]| == MaxWords(pageShift)
            && var words' := WordsWith(pageShift, mem[p], shift, c, false);
               !BlockBit(pageShift, nodes[p].slab, words', shift, c) && !LooksEmpty(pageShift, nodes[p].slab, words', shift)
  {
    assert PageBlocksOk(pageShift, nodes, mem, v, p) && ChunkedOk(nodes, v.role, v.slots, v.exact, p);
    var shift, slab, words := v.role[p].shift, nodes[p].slab, mem[p];
    Geometry(pageShift, shift);
    hide Core, PoolOk, PageBlocksOk, AllBlocks, Pow2, Low, Reserved, Capacity;
    var words' := WordsWith(pageShift, words, shift, c, false);
    WriteBlockBit(pageShift, slab, words, shift, c, false, c);
    StillHasBlock(pageShift, slab, words, shift, v.role[p].busy, c, d);
  }

  lemma StillHasBlock(pageShift: nat, slab: nat, words: seq<nat>, shift: nat, busy: set<nat>, c: nat, d: nat)
    requires ShiftOk(pageShift, shift) && BlocksOk(pageShift, slab, words, shift, busy) && d in busy
    requires KindAt(pageShift, shift) == Small && c < Reserved(pageShift, shift) < Capacity(pageShift, shift)
    ensures !LooksEmpty(pageShift, slab, WordsWith(pageShift, words, shift, c, false), shift)
  {
    assert d in AllBlocks(pageShift, shift) && BlockBit(pageShift, slab, words, shift, d);
    assert Reserved(pageShift, shift) <= d < Capacity(pageShift, shift);
    hide BlocksOk, AllBlocks, BlockBit, LooksEmpty, WordsWith, Reserved, Capacity;
    WriteBlockBit(pageShift, slab, words, shift, c, false, d);
    WriteBlockWordsOk(pageShift, slab, words, shift, c, false);
    if LooksEmpty(pageShift, slab, WordsWith(pageShift, words, shift, c, false), shift) {
      EmptyHasNoBit(pageShift, slab, WordsWith(pageShift, words, shift, c, false), shift, d);
    }
  }

  /** A small-block page whose bitmap's own bit is clear fits no view of the pool. */
  lemma NoViewFits(pageShift: nat, nodes: seq<Node>, mem: seq<seq<nat>>, w: View, p: nat, shift: nat, c: nat)
    requires ShiftOk(pageShift, shift) && p < |nodes| && p < |mem|
    requires KindAt(pageShift, shift) == Small && nodes[p].kind == Small && Low(nodes[p].slab, 4) == shift
    requires c < Reserved(pageShift, shift) && c < Capacity(pageShift, shift)
    requires !BlockBit(pageShift, nodes[p].slab, mem[p], shift, c)
    ensures !PoolOk(pageShift, nodes, mem, w)
  {
    hide BlockBit, PoolOk, Reserved, Capacity;
    if PoolOk(pageShift, nodes, mem, w) {
      BitmapMarked(pageShift, nodes, mem, w, p, shift, c);
    }
  }

  /** The bits of the blocks that hold a page's bitmap are set. */
  lemma BitmapMarked(pageShift: nat, nodes: seq<Node>, mem: seq<seq<nat>>, w: View, p: nat, shift: nat, c: nat)
    requires PoolOk(pageShift, nodes, mem, w) && ShiftOk(pageShift, shift) && p < |nodes| && p < |mem|
    requires KindAt(pageShift, shift) == Small && nodes[p].kind == Small && Low(nodes[p].slab, 4) == shift
    requires c < Reserved(pageShift, shift) && c < Capacity(pageShift, shift)
    ensures BlockBit(pageShift, nodes[p].slab, mem[p], shift, c)
  {
    hide BlockBit, AllBlocks, Reserved, Capacity, Low, Linked, RolesOk, FreeListOk, Coalesced;
    assert NodeOk(nodes, w.role, p, NULL);
    assert ChunkedOk(nodes, w.role, w.slots, w.exact, p) && PageBlocksOk(pageShift, nodes, mem, w, p);
  }

  /** The pool after the bit of a block handed out was cleared, seen from before. */
  ghost predicate GaveBlock(pageShift: nat, nodes: seq<Node>, v: View, p: nat, c: nat, nodes': seq<Node>, mem': seq<seq<nat>>, v': View)
    requires PageShiftOk(pageShift)
  {
    && Core(nodes', v', NULL) && p < |v.role| <= |nodes'| && p < |mem'|
    && v.role[p].Chunked? && ShiftOk(pageShift, v.role[p].shift) && |v.slots| == pageShift - 3
    && v'.exact == v.exact && v'.role == v.role[p := v.role[p].(busy := v.role[p].busy - {c})]
    && v'.slots == ListedSlots(pageShift, v, p) && |v'.slots| == |v.slots|
    && KeepsSlabs(nodes, nodes', v.role, p)
    && RowOk(pageShift, mem'[p])
    && (LooksEmpty(pageShift, nodes'[p].slab, mem'[p], v.role[p].shift) <==> v.role[p].busy == {c})
    && (v.role[p].busy != {c} ==> PoolOk(pageShift, nodes', mem', v'))
  }

  /** A block of the page that is handed out: the one given back, if it is not one of those that
      hold the bitmap. */
  lemma HandedOut(pageShift: nat, nodes: seq<Node>, mem: seq<seq<nat>>, v: View, p: nat, shift: nat, c: nat) returns (d: nat)
    requires PoolOk(pageShift, nodes, mem, v) && p < |v.role| && v.role[p].Chunked? && v.role[p].shift == shift
    requires ShiftOk(pageShift, shift) && (Live(pageShift, v.role, Piece(p, shift, c)) || c < Reserved(pageShift, shift))
    ensures Giving(pageShift, nodes, mem, v, p, d) && (c == d <==> c >= Reserved(pageShift, shift))
    ensures |v.slots| == pageShift - 3 && d in v.role[p].busy
  {
    assert PageBlocksOk(pageShift, nodes, mem, v, p);
    hide Core, WordsOk, BlockBit;
    if c < Reserved(pageShift, shift) {
      d :| d in v.role[p].busy;
    } else {
      d := c;
    }
    assert d in AllBlocks(pageShift, shift);
  }

  /** The pool fits no view any more. */
  ghost predicate Broken(pageShift: nat, nodes: seq<Node>, mem: seq<seq<nat>>) {
    forall w :: !PoolOk(pageShift, nodes, mem, w)
  }

  // ---- addresses handed to free

  predicate AtBitmap(pageShift: nat, role: seq<Role>, off: int)
    requires PageShiftOk(pageShift)
  {
    off >= 0 && PageOf(pageShift, off) < |role| && HitsBitmap(pageShift, role, off)
  }

  lemma AtBitmapHere(pageShift: nat, role: seq<Role>, off: nat)
    requires PageShiftOk(pageShift) && PageOf(pageShift, off) < |role|
    ensures AtBitmap(pageShift, role, off) <==> HitsBitmap(pageShift, role, off)
  {
  }

  /** Every page of small blocks has its bitmap at its start. */
  lemma BitmapAtStart(pageShift: nat, role: seq<Role>, p: nat)
    requires PageShiftOk(pageShift) && p < |role| && role[p].Chunked?
    requires ShiftOk(pageShift, role[p].shift) && role[p].shift < ExactShift(pageShift)
    ensures AtBitmap(pageShift, role, PageOffset(pageShift, p)) && PageOf(pageShift, PageOffset(pageShift, p)) == p
  {
    SmallGeometry(pageShift, role[p].shift);
    DivModUnique(p * PageSize(pageShift), PageSize(pageShift), p, 0);
    hide Reserved;
    DivModUnique(0, Pow2(role[p].shift), 0, 0);
  }

  lemma SmallRequest(pageShift: nat)
    requires PageShiftOk(pageShift)
    ensures 8 <= PageSize(pageShift) / 2 && IsClass(8, 3)
  {
    SmallPower();
    Pow2Monotone(12, pageShift);
    Pow2Scaled(9);
    Pow2Scaled(3);
    assert Pow2(6) == 64 && Pow2(9) == 512;
  }

  /** A block of eight bytes is in a page of small blocks. */
  lemma EightInPage(pageShift: nat, nodes: seq<Node>, mem: seq<seq<nat>>, v: View, b: Block)
    requires PoolOk(pageShift, nodes, mem, v) && Live(pageShift, v.role, b) && b.Piece? && IsClass(8, b.shift)
    ensures var off := PageOffset(pageShift, PageOf(pageShift, Start(pageShift, b)));
            PageOf(pageShift, Start(pageShift, b)) < |v.role| && AtBitmap(pageShift, v.role, off) && PageOf(pageShift, off) < |v.role|
  {
    PoolRolesFit(pageShift, nodes, mem, v);
    SmallRequest(pageShift);
    ClassUnique(8, b.shift, 3);
    StartDetermines(pageShift, v.role, b);
    BitmapAtStart(pageShift, v.role, b.page);
  }

  /** What giving back such a block does: its bit is cleared, one block less is counted as used, and
      the pool is broken. */
  ghost predicate BitmapCleared(pageShift: nat, role: seq<Role>, off: nat, mem: seq<seq<nat>>, used: seq<nat>,
                                nodes': seq<Node>, mem': seq<seq<nat>>, used': seq<nat>)
    requires PageShiftOk(pageShift) && PageOf(pageShift, off) < |role|
  {
    var p := PageOf(pageShift, off);
    && role[p].Chunked? && ShiftOk(pageShift, role[p].shift)
    && var s := role[p].shift;
       BitGivenBack(pageShift, p, s, Quotient(OffsetIn(pageShift, off), Pow2(s)), mem, used, nodes', mem', used')
  }

  ghost predicate BitGivenBack(pageShift: nat, p: nat, shift: nat, c: nat, mem: seq<seq<nat>>, used: seq<nat>,
                              nodes': seq<Node>, mem': seq<seq<nat>>, used': seq<nat>)
    requires ShiftOk(pageShift, shift)
  {
    && c < Capacity(pageShift, shift) && p < |mem| && |mem[p]| == MaxWords(pageShift)
    && mem' == mem[p := WordsWith(pageShift, mem[p], shift, c, false)]
    && shift - 3 < |used| && used[shift - 3] >= 1 && used' == used[shift - 3 := used[shift - 3] - 1]
    && Broken(pageShift, nodes', mem')
  }

  /** The address of one of the blocks that hold a small-block page's bitmap. */
  predicate HitsBitmap(pageShift: nat, role: seq<Role>, off: nat)
    requires PageShiftOk(pageShift) && PageOf(pageShift, off) < |role|
  {
    var p, r := PageOf(pageShift, off), OffsetIn(pageShift, off);
    role[p].Chunked? && ShiftOk(pageShift, role[p].shift) && Remainder(r, Pow2(role[p].shift)) == 0 &&
    Quotient(r, Pow2(role[p].shift)) < Reserved(pageShift, role[p].shift)
  }

  /** Some live block starts at the address. */
  ghost predicate StartsLive(pageShift: nat, role: seq<Role>, off: int)
    requires PageShiftOk(pageShift)
  {
    exists c :: Live(pageShift, role, c) && Start(pageShift, c) == off
  }

  lemma NothingOutside(pageShift: nat, role: seq<Role>, off: int, span: nat)
    requires PageShiftOk(pageShift) && RolesFit(pageShift, role) && |role| * PageSize(pageShift) <= span
    requires off < 0 || off > span
    ensures !StartsLive(pageShift, role, off) && !AtBitmap(pageShift, role, off)
  {
    if off > span {
      var q, r := DivMod(off, PageSize(pageShift));
      if q < |role| {
        SpanBefore(q, 1, |role|, PageSize(pageShift));
      }
    }
    forall c | Live(pageShift, role, c) ensures Start(pageShift, c) != off {
      LiveInPages(pageShift, role, c);
      SpanBefore(FirstPage(c), PageCount(c), |role|, PageSize(pageShift));
    }
  }

  /** Nor does any live block start behind the last page. */
  lemma NothingBehind(pageShift: nat, role: seq<Role>, off: nat)
    requires PageShiftOk(pageShift) && RolesFit(pageShift, role) && PageOf(pageShift, off) >= |role|
    ensures !StartsLive(pageShift, role, off) && !AtBitmap(pageShift, role, off)
  {
    forall c | Live(pageShift, role, c) ensures Start(pageShift, c) != off {
      StartDetermines(pageShift, role, c);
      LiveInPages(pageShift, role, c);
    }
  }

  /** A page record without a tag: its address starts a live block exactly when the record
      is marked as the start of a run and nothing else of the run. */
  lemma WholeRecord(pageShift: nat, nodes: seq<Node>, mem: seq<seq<nat>>, v: View, p: nat, r: nat, off: nat)
    requires PoolOk(pageShift, nodes, mem, v) && p < |v.role| && nodes[p].kind == Whole
    requires p == PageOf(pageShift, off) && r == OffsetIn(pageShift, off)
    ensures !HitsBitmap(pageShift, v.role, off)
    ensures StartsLive(pageShift, v.role, off) <==> r == 0 && nodes[p].slab >= START && nodes[p].slab != PAGE_BUSY
    ensures StartsLive(pageShift, v.role, off) ==>
      v.role[p] == Run(nodes[p].slab - START) && off == Start(pageShift, Pages(p, nodes[p].slab - START))
  {
    PoolRolesFit(pageShift, nodes, mem, v);
    assert NodeOk(nodes, v.role, p, NULL) && RoleOk(v.role, p) && ChunkedOk(nodes, v.role, v.slots, v.exact, p);
    var q, s := DivMod(off, PageSize(pageShift));
    if StartsLive(pageShift, v.role, off) {
      var c :| Live(pageShift, v.role, c) && Start(pageShift, c) == off;
      StartDetermines(pageShift, v.role, c);
    }
    if r == 0 && nodes[p].slab >= START && nodes[p].slab != PAGE_BUSY {
      assert Live(pageShift, v.role, Pages(p, nodes[p].slab - START));
    }
  }

  /** A page record with a tag: the shift is read back from it, and the address starts a
      live block exactly when it is a multiple of the block size whose bit is set. */
  lemma ChunkedRecord(pageShift: nat, nodes: seq<Node>, mem: seq<seq<nat>>, v: View, p: nat, r: nat, off: nat)
      returns (shift: nat, c: nat, aligned: bool)
    requires PoolOk(pageShift, nodes, mem, v) && p < |v.role| && nodes[p].kind != Whole
    requires p == PageOf(pageShift, off) && r == OffsetIn(pageShift, off)
    ensures v.role[p].Chunked? && v.role[p].shift == shift && ShiftOk(pageShift, shift)
    ensures nodes[p].kind == KindAt(pageShift, shift)
    ensures shift == if nodes[p].kind == Exact then ExactShift(pageShift) else Low(nodes[p].slab, 4)
    ensures aligned == (r % Pow2(shift) == 0) && c == r / Pow2(shift) && c < Capacity(pageShift, shift)
    ensures StartsLive(pageShift, v.role, off) || HitsBitmap(pageShift, v.role, off) <==>
      aligned && BlockBit(pageShift, nodes[p].slab, mem[p], shift, c)
    ensures HitsBitmap(pageShift, v.role, off) ==> c < Reserved(pageShift, shift)
    ensures c < Reserved(pageShift, shift) ==> !StartsLive(pageShift, v.role, off)
    ensures StartsLive(pageShift, v.role, off) ==>
      Live(pageShift, v.role, Piece(p, shift, c)) && Start(pageShift, Piece(p, shift, c)) == off
  {
    assert NodeOk(nodes, v.role, p, NULL) && PageBlocksOk(pageShift, nodes, mem, v, p);
    assert ChunkedOk(nodes, v.role, v.slots, v.exact, p);
    shift := v.role[p].shift;
    hide Core, PoolOk, Pow2, Reserved, Capacity, BlockBit, StartsLive, HitsBitmap, Live, Start, Low;
    c, aligned := Quotient(r, Pow2(shift)), Remainder(r, Pow2(shift)) == 0;
    PoolRolesFit(pageShift, nodes, mem, v);
    PieceAddress(pageShift, v.role, p, r, off, nodes[p].slab, mem[p]);
  }

  lemma PieceAddress(pageShift: nat, role: seq<Role>, p: nat, r: nat, off: nat, slab: nat, words: seq<nat>)
    requires PageShiftOk(pageShift) && RolesFit(pageShift, role) && p < |role| && role[p].Chunked? && ShiftOk(pageShift, role[p].shift)
    requires p == PageOf(pageShift, off) && r == OffsetIn(pageShift, off)
    requires BlocksOk(pageShift, slab, words, role[p].shift, role[p].busy)
    ensures var shift := role[p].shift; var c := Quotient(r, Pow2(shift));
            && c < Capacity(pageShift, shift)
            && (StartsLive(pageShift, role, off) || HitsBitmap(pageShift, role, off)
                <==> Remainder(r, Pow2(shift)) == 0 && BlockBit(pageShift, slab, words, shift, c))
            && (HitsBitmap(pageShift, role, off) ==> c < Reserved(pageShift, shift))
            && (c < Reserved(pageShift, shift) ==> !StartsLive(pageShift, role, off))
            && (StartsLive(pageShift, role, off) ==>
                 Live(pageShift, role, Piece(p, shift, c)) && Start(pageShift, Piece(p, shift, c)) == off)
  {
    hide Pow2, Reserved, BlocksOk, RolesFit, StartsLive, BlockBit, Start, Live;
    hide PageOf, OffsetIn, PageSize, Capacity, Quotient, Remainder;
    var shift := role[p].shift;
    var c, t := Quotient(r, Pow2(shift)), Remainder(r, Pow2(shift));
    BlockNumber(pageShift, off, p, r, shift);
    LiveHere(pageShift, role, p, r, off);
    AddressOfBlock(pageShift, role, p, c, t == 0, off, slab, words);
  }

  /** An address that is that of block c if it is that of a block at all. */
  lemma AddressOfBlock(pageShift: nat, role: seq<Role>, p: nat, c: nat, aligned: bool, off: nat, slab: nat, words: seq<nat>)
    requires PageShiftOk(pageShift) && p < |role| && role[p].Chunked? && ShiftOk(pageShift, role[p].shift)
    requires BlocksOk(pageShift, slab, words, role[p].shift, role[p].busy) && c < Capacity(pageShift, role[p].shift)
    requires aligned ==> Start(pageShift, Piece(p, role[p].shift, c)) == off
    requires StartsLive(pageShift, role, off) ==> aligned && c in role[p].busy
    ensures StartsLive(pageShift, role, off) || (aligned && c < Reserved(pageShift, role[p].shift))
            <==> aligned && BlockBit(pageShift, slab, words, role[p].shift, c)
    ensures c < Reserved(pageShift, role[p].shift) ==> !StartsLive(pageShift, role, off)
    ensures StartsLive(pageShift, role, off) ==>
              Live(pageShift, role, Piece(p, role[p].shift, c)) && Start(pageShift, Piece(p, role[p].shift, c)) == off
  {
    var shift := role[p].shift;
    hide Pow2, Reserved, StartsLive, BlockBit, Start, PageSize, WordsOk, Capacity;
    assert BlockBit(pageShift, slab, words, shift, c) <==> c < Reserved(pageShift, shift) || c in role[p].busy;
    assert c in role[p].busy ==> c in AllBlocks(pageShift, shift);
    hide BlocksOk;
    if aligned && c in role[p].busy {
      StartsHere(pageShift, role, p, c, off);
    }
  }

  /** Which block of its page an address is in, if blocks have that shift. */
  lemma BlockNumber(pageShift: nat, off: nat, p: nat, r: nat, shift: nat)
    requires ShiftOk(pageShift, shift) && p == PageOf(pageShift, off) && r == OffsetIn(pageShift, off)
    ensures Quotient(r, Pow2(shift)) < Capacity(pageShift, shift)
    ensures Remainder(r, Pow2(shift)) == 0 ==> Start(pageShift, Piece(p, shift, Quotient(r, Pow2(shift)))) == off
  {
    var q, s := DivMod(off, PageSize(pageShift));
    var c, t := DivMod(r, Pow2(shift));
    Pow2Add(pageShift - shift, shift);
    hide Pow2;
    if Capacity(pageShift, shift) <= c {
      MulMono(Capacity(pageShift, shift), c, Pow2(shift));
    }
  }

  /** A live block at an address in a page of blocks is one of its blocks. */
  lemma LiveHere(pageShift: nat, role: seq<Role>, p: nat, r: nat, off: nat)
    requires PageShiftOk(pageShift) && RolesFit(pageShift, role) && p < |role| && role[p].Chunked?
    requires p == PageOf(pageShift, off) && r == OffsetIn(pageShift, off)
    ensures StartsLive(pageShift, role, off) ==>
              Remainder(r, Pow2(role[p].shift)) == 0 && Quotient(r, Pow2(role[p].shift)) in role[p].busy
  {
    hide Pow2, Reserved, RolesFit;
    if StartsLive(pageShift, role, off) {
      var b :| Live(pageShift, role, b) && Start(pageShift, b) == off;
      StartDetermines(pageShift, role, b);
    }
  }

  lemma StartsHere(pageShift: nat, role: seq<Role>, p: nat, c: nat, off: nat)
    requires PageShiftOk(pageShift) && p < |role| && role[p].Chunked? && ShiftOk(pageShift, role[p].shift)
    requires c in role[p].busy && Start(pageShift, Piece(p, role[p].shift, c)) == off
    ensures StartsLive(pageShift, role, off) && Live(pageShift, role, Piece(p, role[p].shift, c))
  {
    assert Live(pageShift, role, Piece(p, role[p].shift, c));
  }

  lemma RunBodies(nodes: seq<Node>, v: View, p: nat)
    requires Core(nodes, v, NULL) && p < |v.role| && v.role[p].Run?
    ensures v.role[p].len >= 1
    ensures forall i :: p < i < p + v.role[p].len && i < |v.role| ==> v.role[i].RunBody?
  {
    assert RoleOk(v.role, p);
  }

  // ---- a fresh pool

  function FreshRole(npages: nat): seq<Role>
    requires npages > 0
  {
    seq(npages, i => if i == 0 then Free(npages) else FreeBody(0))
  }

  function FreshView(pageShift: nat, npages: nat): View
    requires PageShiftOk(pageShift) && npages > 0
  {
    View(FreshRole(npages), [0], seq(pageShift - 3, _ => []), ExactShift(pageShift))
  }

  ghost predicate FreshNodes(nodes: seq<Node>, npages: nat, n: nat) {
    && |nodes| == npages + 1 + n && npages > 0
    && nodes[0] == Node(npages, npages, npages, Whole)
    && (forall i :: 0 < i < npages ==> nodes[i] == ZEROED)
    && nodes[npages].next == 0
    && (forall h :: npages < h < |nodes| ==> nodes[h].next == h)
  }

  lemma FreshCore(pageShift: nat, nodes: seq<Node>, npages: nat)
    requires PageShiftOk(pageShift) && npages + 1 < START && FreshNodes(nodes, npages, pageShift - 3)
    ensures Core(nodes, FreshView(pageShift, npages), NULL)
  {
    var v := FreshView(pageShift, npages);
    forall i | 0 <= i < npages ensures RoleOk(v.role, i) && GapAfter(v.role, i, NULL) && NodeOk(nodes, v.role, i, NULL) {
    }
    forall i: nat ensures i in v.order <==> i < npages && v.role[i].Free? {
    }
    forall s | 0 <= s < |v.slots| ensures SlotOk(nodes, v.role, s, v.slots[s]) {
    }
    forall i | 0 <= i < npages ensures ChunkedOk(nodes, v.role, v.slots, v.exact, i) {
    }
  }

  lemma FreshPool(pageShift: nat, nodes: seq<Node>, mem: seq<seq<nat>>, npages: nat)
    requires PageShiftOk(pageShift) && npages + 1 < START && FreshNodes(nodes, npages, pageShift - 3)
    requires |mem| == npages && forall i :: 0 <= i < npages ==> |mem[i]| == MaxWords(pageShift) && forall w :: 0 <= w < |mem[i]| ==> mem[i][w] == 0
    ensures PoolOk(pageShift, nodes, mem, FreshView(pageShift, npages))
  {
    FreshCore(pageShift, nodes, npages);
    ZeroFits();
    hide Core;
    var v := FreshView(pageShift, npages);
    forall i | 0 <= i < npages ensures PageBlocksOk(pageShift, nodes, mem, v, i) && RowOk(pageShift, mem[i]) {
    }
  }

  lemma FreshFree(pageShift: nat, npages: nat)
    requires PageShiftOk(pageShift) && npages > 0
    ensures |FreeSet(FreshRole(npages))| == npages
    ensures forall b :: !Live(pageShift, FreshRole(npages), b)
  {
    assert FreeSet(FreshRole(npages)) == Range(0, npages);
  }

  lemma FreshStats(pageShift: nat, used: seq<nat>, total: seq<nat>, npages: nat)
    requires PageShiftOk(pageShift) && npages > 0 && |used| == |total| == pageShift - 3
    requires forall s :: 0 <= s < pageShift - 3 ==> used[s] == 0 && total[s] == 0
    ensures StatsOk(pageShift, used, total, FreshRole(npages))
  {
    hide PerPage;
    forall c, s ensures Sum(c, s, FreshRole(npages)) == 0 {
      SumZero(c, s, FreshRole(npages));
    }
  }
}
