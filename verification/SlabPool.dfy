/** The shared-memory slab allocator over its page records, in-page bitmaps and counters. */
module SlabPool {
  import opened Bits
  import opened PageLists
  import opened PageRuns
  import opened PageClasses
  import opened SlabBlocks
  import opened SlabLayout
  import opened SlabModel
  import opened SlabSteps

  /** Addresses are byte offsets from `pool->start`, which is page-aligned; NULL is -1.
      `nodes` holds the page records, then the free-list head, then the size classes' heads;
      `mem[i]` is the words at the start of page i. */
  class Pool {
    const pageShift: nat
    const npages: nat
    const span: nat  // bytes from pool->start to pool->end
    const records: nat  // page records that fit before pool->start; those behind the last page stay zero
    const nodes: array<Node>
    const mem: array<seq<nat>>
    const total: array<nat>
    const used: array<nat>
    const reqs: array<nat>
    const fails: array<nat>
    var pfree: nat
    ghost var view: View

    ghost predicate Shape()
      reads this
    {
      && PageShiftOk(pageShift)
      && 0 < npages <= records && npages * PageSize(pageShift) <= span
      && nodes.Length == npages + 1 + (pageShift - 3)
      && mem.Length == npages
      && total.Length == used.Length == reqs.Length == fails.Length == pageShift - 3
      && total != used && total != reqs && total != fails && used != reqs && used != fails && reqs != fails
      && |view.role| == npages
      && |view.slots| == pageShift - 3
      && view.exact == ExactShift(pageShift)
    }

    /** The page invariant, with the free run at x not on the free list. */
    ghost predicate PagesOk(x: int)
      reads this, nodes
    {
      && Shape()
      && Core(nodes[..], view, x)
    }

    // ---- pages

    /** The first `pages` pages of the listed run at `page` are handed out. */
    method Take(page: nat, pages: nat, ghost k: nat)
      requires PagesOk(NULL) && Takes(nodes[..], view, k, pages) && page == view.order[k]
      requires pfree == |FreeSet(view.role)|
      modifies this, nodes
      ensures PagesOk(NULL) && pfree == |FreeSet(view.role)|
      ensures nodes[..] == TakenNodes(old(nodes[..]), old(view), k, pages)
      ensures view == TakenView(old(view), k, pages)
    {
      TakesDefined(nodes[..], view, k, pages);
      FreeLinks(nodes[..], view.role, view.order, NULL, k);
      TakenKeepsCore(nodes[..], view, k, pages);
      CarvedFreeSet(view.role, page, pages);
      SplitOrUnlink(page, pages, view.role[page].len);
      Stamp(page, pages);
      pfree := pfree - pages;
      view := TakenView(view, k, pages);
    }

    method SplitOrUnlink(page: nat, pages: nat, ghost len: nat)
      requires 1 <= pages <= len && page + len <= nodes.Length && nodes[page].slab == len
      requires 0 <= nodes[page].prev < nodes.Length && 0 <= nodes[page].next < nodes.Length
      requires nodes[page].prev != page
      modifies nodes
      ensures nodes[..] == SplitOff(old(nodes[..]), page, pages, len)
    {
      var length := nodes[page].slab;
      ghost var m0 := nodes[..];
      if length > pages {
        var rest := page + pages;
        nodes[page + length - 1] := nodes[page + length - 1].(prev := rest, kind := Whole);
        nodes[rest] := nodes[rest].(slab := length - pages);
        ghost var m := nodes[..];
        nodes[rest] := nodes[rest].(next := nodes[page].next, prev := nodes[page].prev, kind := nodes[page].kind);
        nodes[nodes[page].prev] := nodes[nodes[page].prev].(next := rest);
        nodes[nodes[page].next] := nodes[nodes[page].next].(prev := rest, kind := Whole);
        assert nodes[..] == Relinked(m, page, rest);
      } else {
        Unlink(page);
      }
    }

    /** Takes a record out of its list: its two neighbours are linked to each other. */
    method Unlink(page: nat)
      requires page < nodes.Length && 0 <= nodes[page].prev < nodes.Length && 0 <= nodes[page].next < nodes.Length
      modifies nodes
      ensures nodes[..] == Unlinked(old(nodes[..]), page)
    {
      var prev, next, kind := nodes[page].prev, nodes[page].next, nodes[page].kind;
      nodes[prev] := nodes[prev].(next := next);
      nodes[next] := nodes[next].(prev := prev, kind := kind);
    }

    method Stamp(page: nat, pages: nat)
      requires 1 <= pages && page + pages <= nodes.Length
      modifies nodes
      ensures nodes[..] == Stamped(old(nodes[..]), page, pages)
    {
      nodes[page] := Node(pages + START, NULL, NULL, Whole);
      ghost var m := nodes[..];
      var p := page + 1;
      while p < page + pages
        invariant page + 1 <= p <= page + pages
        invariant nodes[..] == Filled(m, page + 1, p, Node(PAGE_BUSY, NULL, NULL, Whole))
      {
        nodes[p] := Node(PAGE_BUSY, NULL, NULL, Whole);
        p := p + 1;
      }
    }

    /** The first run on the free list with enough pages, or the list head. */
    method FindRun(pages: nat) returns (page: nat, ghost k: nat)
      requires PagesOk(NULL) && 1 <= pages
      ensures page == npages <==> !HasWindow(view.role, pages)
      ensures page != npages ==> Takes(nodes[..], view, k, pages) && page == view.order[k] && FirstFit(view, k, pages)
    {
      assert nodes[..][At(npages, view.order, -1)].next == Succ(npages, view.order, -1);
      page := nodes[npages].next;
      k := 0;
      forall j | 0 <= j < |view.order| ensures view.order[j] < npages && view.role[view.order[j]].Free? {
        assert view.order[j] in view.order;
      }
      while page != npages && nodes[page].slab < pages
        invariant 0 <= k <= |view.order| && page == At(npages, view.order, k)
        invariant page != npages ==> k < |view.order|
        invariant forall j :: 0 <= j < k ==> view.role[view.order[j]].len < pages
        decreases |view.order| - k
      {
        assert NodeOk(nodes[..], view.role, page, NULL);
        LinkedAt(nodes[..], npages, view.order, k);
        page := nodes[page].next;
        k := k + 1;
      }
      WindowIffRun(view.role, view.order, pages);
      if page != npages {
        assert page in view.order;
        assert NodeOk(nodes[..], view.role, page, NULL);
      }
    }

    /** First fit over the free list. */
    method AllocPages(pages: nat) returns (page: int, ghost k: nat)
      requires PagesOk(NULL) && 1 <= pages && pfree == |FreeSet(view.role)|
      modifies this, nodes
      ensures PagesOk(NULL) && pfree == |FreeSet(view.role)|
      ensures page == NULL <==> !HasWindow(old(view.role), pages)
      ensures page == NULL ==> view == old(view) && nodes[..] == old(nodes[..])
      ensures page != NULL ==>
        && Takes(old(nodes[..]), old(view), k, pages)
        && page == old(view).order[k] && FirstFit(old(view), k, pages)
        && nodes[..] == TakenNodes(old(nodes[..]), old(view), k, pages)
        && view == TakenView(old(view), k, pages)
    {
      page, k := FindRun(pages);
      if page == npages {
        page := NULL;
      } else {
        Take(page, pages, k);
      }
    }

    // ---- giving pages back

    /** `page` starts a run of whole pages, or is a page cut into blocks that is k-th on the
        list of size class s. */
    ghost predicate Releasable(page: nat, pages: nat, s: nat, k: nat)
      reads this, nodes
    {
      && PagesOk(NULL) && page < npages
      && if view.role[page].Run? then view.role[page] == Run(pages)
         else pages == 1 && s < |view.slots| && k < |view.slots[s]| && page == view.slots[s][k]
    }

    /** The pages leave their users, and their size class if they had one. */
    method Detach(page: nat, pages: nat, ghost s: nat, ghost k: nat)
      requires Releasable(page, pages, s, k)
      modifies this`view, nodes
      ensures PagesOk(page)
      ensures view.role[page] == Role.Free(pages)
      ensures FreesOnly(old(view.role), view.role, page, pages) && page + pages <= npages
      ensures forall i :: page <= i < page + pages ==> !IsFree(old(view.role)[i])
      ensures forall i :: page < i < page + pages ==> old(view.role)[i].RunBody?
      ensures KeepsSlabs(old(nodes[..]), nodes[..], old(view.role), page)
      ensures view.slots == if old(view.role)[page].Run? then old(view.slots) else old(view.slots)[s := Without(old(view.slots)[s], k)]
    {
      ghost var m, v := nodes[..], view;
      assert NodeOk(m, v.role, page, NULL) && RoleOk(v.role, page);
      hide RolesOk, NodesOk, FreeListOk, SlotListsOk, Coalesced, Linked;
      if v.role[page].Run? {
        DetachRun(m, v, page);
        DetachedRunRoles(v.role, page);
        view := v.(role := Freed(v.role, page));
      } else {
        SlotLinks(m, v, s, k);
        DetachChunked(m, v, s, k);
        view := UnslottedView(v, s, k);
      }
      nodes[page] := nodes[page].(slab := pages);
      forall i | page < i < page + pages {
        nodes[i] := ZEROED;
      }
      assert nodes[..] == Cleared(m, page, pages);
      if nodes[page].next != NULL {
        assert nodes[..] == m[page := m[page].(slab := 1)];
        Unlink(page);
      }
    }

    method MergeRecords(a: nat, b: nat, y: nat)
      requires a < nodes.Length && b < nodes.Length && y < nodes.Length
      requires 0 <= nodes[y].prev < nodes.Length && 0 <= nodes[y].next < nodes.Length
      modifies nodes
      ensures nodes[..] == Merged(old(nodes[..]), a, b, y)
    {
      nodes[a] := nodes[a].(slab := nodes[a].slab + nodes[b].slab);
      Unlink(y);
      nodes[b] := ZEROED;
    }

    /** The run at b, right behind the one at a, is joined to it; y of the two was listed. */
    method Merge(a: nat, b: nat, y: nat, ghost x: nat, ghost k: nat)
      requires PagesOk(x) && Neighbours(nodes[..], view, x, a, k)
      requires b == a + view.role[a].len && y == view.order[k]
      modifies this`view, nodes
      ensures PagesOk(a) && view.slots == old(view.slots)
      ensures view.role == MergedRole(old(view.role), a)
      ensures FreesOnly(old(view.role), view.role, a, 0)
      ensures KeepsSlabs(old(nodes[..]), nodes[..], old(view.role), NULL)
    {
      hide Core, Neighbours, FreesOnly, KeepsSlabs;
      ghost var m := nodes[..];
      MergeStep(m, view, x, a, k);
      MergeRecords(a, b, y);
      view := view.(role := MergedRole(view.role, a), order := Without(view.order, k));
    }

    /** A free run right behind the one at `page` is joined to it. */
    method JoinRight(page: nat)
      requires PagesOk(page)
      modifies this`view, nodes
      ensures PagesOk(page) && view.slots == old(view.slots)
      ensures FreesOnly(old(view.role), view.role, page, 0)
      ensures KeepsSlabs(old(nodes[..]), nodes[..], old(view.role), NULL)
      ensures var next := page + view.role[page].len; next < npages ==> !view.role[next].Free?
    {
      hide SlotListsOk, Linked, PoolOk, StatsOk;
      assert NodeOk(nodes[..], view.role, page, page) && RoleOk(view.role, page);
      var join := page + nodes[page].slab;
      if join < npages {
        FreeHeadRecord(nodes[..], view, page, join);
        if nodes[join].kind == Whole && nodes[join].next != NULL {
          assert join in view.order && GapAfter(view.role, join, page);
          ghost var k :| 0 <= k < |view.order| && view.order[k] == join;
          Merge(page, join, join, page, k);
        }
      }
    }

    /** A free run that ends right before the one at `page` swallows it. */
    method JoinLeft(page: nat) returns (head: nat)
      requires PagesOk(page)
      requires var next := page + view.role[page].len; next < npages ==> !view.role[next].Free?
      modifies this`view, nodes
      ensures PagesOk(head) && view.slots == old(view.slots)
      ensures Isolated(view.role, head)
      ensures FreesOnly(old(view.role), view.role, page, 0)
      ensures KeepsSlabs(old(nodes[..]), nodes[..], old(view.role), NULL)
    {
      head := page;
      if page > 0 {
        ghost var j := LeftRunRecord(nodes[..], view, page);
        if nodes[page - 1].kind == Whole {
          var join := if nodes[page - 1].slab == 0 then nodes[page - 1].prev else page - 1;
          FreeHeadRecord(nodes[..], view, page, j);
          if nodes[join].next != NULL {
            ghost var k := LeftNeighbour(nodes[..], view, page, j);
            Merge(join, page, join, page, k);
            head := join;
          }
        }
      }
    }

    /** The joined run is closed with a tail pointer and put first on the free list. */
    method Attach(head: nat)
      requires PagesOk(head) && Isolated(view.role, head)
      modifies this`view, nodes
      ensures PagesOk(NULL) && view.slots == old(view.slots)
      ensures view.role == old(view.role) && view.order == [head] + old(view.order)
      ensures KeepsSlabs(old(nodes[..]), nodes[..], old(view.role), NULL)
    {
      hide Core, Isolated;
      ghost var m := nodes[..];
      AttachFacts(m, view, head);
      AttachKeepsCore(m, view, head);
      var last := nodes[head].slab - 1;
      if last > 0 {
        nodes[head + last] := nodes[head + last].(prev := head, kind := Whole);
      }
      var first := nodes[npages].next;
      nodes[head] := nodes[head].(next := first, prev := npages, kind := Whole);
      nodes[first] := nodes[first].(prev := head, kind := Whole);
      nodes[npages] := nodes[npages].(next := head);
      assert nodes[..] == Attached(m, npages, head, view.role[head].len);
      view := view.(order := [head] + view.order);
    }

    /** The detached run at `page` is joined with its neighbours and listed. */
    method Join(page: nat)
      requires PagesOk(page)
      modifies this`view, nodes
      ensures PagesOk(NULL) && view.slots == old(view.slots)
      ensures FreesOnly(old(view.role), view.role, page, 0)
      ensures KeepsSlabs(old(nodes[..]), nodes[..], old(view.role), NULL)
    {
      ghost var role := view.role;
      JoinRight(page);
      ghost var joined := view.role;
      var head := JoinLeft(page);
      FreesOnlyThen(role, joined, view.role, page, 0);
      Attach(head);
    }

    /** Pages go back to the free list, joined with free neighbours on either side. */
    method FreePages(page: nat, pages: nat, ghost s: nat, ghost k: nat)
      requires Releasable(page, pages, s, k) && pfree == |FreeSet(view.role)|
      modifies this, nodes
      ensures PagesOk(NULL) && pfree == |FreeSet(view.role)|
      ensures FreesOnly(old(view.role), view.role, page, pages)
      ensures KeepsSlabs(old(nodes[..]), nodes[..], old(view.role), page)
      ensures view.slots == if old(view.role)[page].Run? then old(view.slots) else old(view.slots)[s := Without(old(view.slots)[s], k)]
    {
      pfree := pfree + pages;
      ghost var role := view.role;
      Detach(page, pages, s, k);
      ghost var detached, m := view.role, nodes[..];
      Join(page);
      KeepsSlabsThen(old(nodes[..]), m, nodes[..], role, detached, page, pages);
      FreesOnlyCount(role, detached, page, pages);
      FreesOnlyThen(role, detached, view.role, page, pages);
    }

    // ---- blocks

    ghost predicate Valid()
      reads this, nodes, mem, total, used
    {
      && PagesOk(NULL)
      && PoolOk(pageShift, nodes[..], mem[..], view)
      && pfree == |FreeSet(view.role)|
      && StatsOk(pageShift, used[..], total[..], view.role)
    }

    /** Counts how often size - 1 can be halved. */
    method ShiftOf(size: nat) returns (shift: nat)
      requires 2 <= size
      ensures 1 <= shift && Pow2(shift - 1) < size <= Pow2(shift)
    {
      shift := 1;
      var s := (size - 1) / 2;
      HighStep(size - 1, 0);
      while s != 0
        invariant 1 <= shift && s == High(size - 1, shift)
        invariant High(size - 1, shift - 1) != 0
        decreases s
      {
        HighStep(size - 1, shift);
        shift := shift + 1;
        s := s / 2;
      }
      assert High(size - 1, shift - 1 + 1) == 0;
      TopBit(size - 1, shift - 1);
    }

    /** The first clear bit of `count` bits of w, counting from bit `from`. */
    method FirstClear(w: nat, from: nat, count: nat) returns (i: nat)
      ensures i <= count
      ensures forall b :: from <= b < from + i ==> Bit(w, b)
      ensures i < count ==> !Bit(w, from + i)
    {
      i := 0;
      while i < count && Bit(w, from + i)
        invariant i <= count
        invariant forall b :: from <= b < from + i ==> Bit(w, b)
      {
        i := i + 1;
      }
    }

    /** The search for the first free block: over the words of the in-page bitmap, over the bits of
        the slab word, or over the bits of its upper half. */
    method FindBlock(slab: nat, words: seq<nat>, shift: nat, ghost busy: set<nat>) returns (c: nat)
      requires PageShiftOk(pageShift) && ShiftOk(pageShift, shift)
      requires BlocksOk(pageShift, slab, words, shift, busy) && busy != AllBlocks(pageShift, shift)
      ensures c in AllBlocks(pageShift, shift) && c !in busy
      ensures forall d :: d in AllBlocks(pageShift, shift) && d < c ==> d in busy
      ensures shift < ExactShift(pageShift) ==> forall w :: 0 <= w < c / 64 ==> WordAt(words, w) == WORD_BUSY
    {
      hide BlockBit, AllBlocks, Pow2;
      if shift < ExactShift(pageShift) {
        c := FindSmall(slab, words, shift);
        SearchResult(pageShift, slab, words, shift, busy, c);
      } else if shift == ExactShift(pageShift) {
        c := FirstClear(slab, 0, 64);
        SearchWord(pageShift, slab, words, shift, busy, c, 0);
      } else {
        c := FirstClear(slab, 32, Capacity(pageShift, shift));
        SearchWord(pageShift, slab, words, shift, busy, c, 32);
      }
    }

    method FindSmall(ghost slab: nat, words: seq<nat>, shift: nat) returns (c: nat)
      requires PageShiftOk(pageShift) && ShiftOk(pageShift, shift) && shift < ExactShift(pageShift)
      requires WordsOk(pageShift, slab, words, shift)
      ensures c <= Capacity(pageShift, shift)
      ensures c < Capacity(pageShift, shift) ==> !BlockBit(pageShift, slab, words, shift, c)
      ensures forall d :: 0 <= d < c ==> BlockBit(pageShift, slab, words, shift, d)
      ensures c < Capacity(pageShift, shift) ==> forall w :: 0 <= w < c / 64 ==> WordAt(words, w) == WORD_BUSY
    {
      hide Pow2;
      SmallGeometry(pageShift, shift);
      var count, n := Words(pageShift, shift), 0;
      while n < count && words[n] == WORD_BUSY
        invariant 0 <= n <= count
        invariant forall d :: 0 <= d < 64 * n ==> Bit(words[d / 64], d % 64)
        invariant forall w :: 0 <= w < n ==> words[w] == WORD_BUSY
      {
        BusyWord(words[n]);
        n := n + 1;
      }
      if n == count {
        return 64 * count;
      }
      var i := FirstClear(words[n], 0, 64);
      if i == 64 {
        AllBitsIsOnes(words[n], 64);
        WordBusyIsOnes();
        assert false;
      }
      assert (64 * n + i) / 64 == n && (64 * n + i) % 64 == i;
      c := 64 * n + i;
    }

    /** The bit of block c of the page is set or cleared. */
    method WriteBit(page: nat, shift: nat, c: nat, on: bool)
      requires page < mem.Length && mem.Length <= nodes.Length && PageShiftOk(pageShift) && ShiftOk(pageShift, shift)
      requires c < Capacity(pageShift, shift) && |mem[page]| == MaxWords(pageShift)
      modifies nodes, mem
      ensures nodes[..] == old(nodes[..])[page := old(nodes[page]).(slab := SlabWith(pageShift, old(nodes[page]).slab, shift, c, on))]
      ensures mem[..] == old(mem[..])[page := WordsWith(pageShift, old(mem[page]), shift, c, on)]
    {
      if shift < ExactShift(pageShift) {
        SmallGeometry(pageShift, shift);
        var word := mem[page][c / 64];
        mem[page] := mem[page][c / 64 := if on then SetBit(word, c % 64) else ClearBit(word, c % 64)];
      } else {
        var bit := if shift == ExactShift(pageShift) then c else 32 + c;
        nodes[page] := nodes[page].(slab := if on then SetBit(nodes[page].slab, bit) else ClearBit(nodes[page].slab, bit));
      }
    }

    /** Whether the page has no block left, given that the words before that of block c are
        all ones. */
    method IsFull(slab: nat, words: seq<nat>, shift: nat, c: nat) returns (full: bool)
      requires PageShiftOk(pageShift) && ShiftOk(pageShift, shift)
      requires c < Capacity(pageShift, shift) && |words| == MaxWords(pageShift)
      requires shift < ExactShift(pageShift) ==> forall w :: 0 <= w < c / 64 ==> WordAt(words, w) == WORD_BUSY
      ensures full == LooksFull(pageShift, slab, words, shift)
    {
      if shift == ExactShift(pageShift) {
        return slab == WORD_BUSY;
      } else if shift > ExactShift(pageShift) {
        return High(slab, 32) == Pow2(Capacity(pageShift, shift)) - 1;
      }
      SmallGeometry(pageShift, shift);
      var n := c / 64;
      while n < Words(pageShift, shift) && words[n] == WORD_BUSY
        invariant 0 <= n <= Words(pageShift, shift)
        invariant forall w :: 0 <= w < n ==> WordAt(words, w) == WORD_BUSY
      {
        n := n + 1;
      }
      assert n < Words(pageShift, shift) ==> WordAt(words, n) != WORD_BUSY;
      return n == Words(pageShift, shift);
    }

    /** Whether the page's last block came back. */
    method IsEmpty(slab: nat, words: seq<nat>, shift: nat) returns (empty: bool)
      requires PageShiftOk(pageShift) && ShiftOk(pageShift, shift) && |words| == MaxWords(pageShift)
      ensures empty == LooksEmpty(pageShift, slab, words, shift)
    {
      if shift == ExactShift(pageShift) {
        return slab == 0;
      } else if shift > ExactShift(pageShift) {
        return High(slab, 32) == 0;
      }
      SmallGeometry(pageShift, shift);
      var n := Reserved(pageShift, shift);
      if High(words[n / 64], n % 64) != 0 {
        return false;
      }
      var i := n / 64 + 1;
      while i < Words(pageShift, shift) && words[i] == 0
        invariant n / 64 < i <= Words(pageShift, shift)
        invariant forall w :: n / 64 < w < i ==> WordAt(words, w) == 0
      {
        i := i + 1;
      }
      assert i < Words(pageShift, shift) ==> WordAt(words, i) != 0;
      return i == Words(pageShift, shift);
    }

    ghost predicate PoolValid()
      reads this, nodes, mem
    {
      && PagesOk(NULL)
      && PoolOk(pageShift, nodes[..], mem[..], view)
      && pfree == |FreeSet(view.role)|
    }

    /** Block c of the first page of a size class is marked; a page left without a free block
        leaves its list. */
    method MarkTaken(slot: nat, page: nat, c: nat)
      requires PoolValid() && Taking(pageShift, nodes[..], mem[..], view, slot, c) && page == view.slots[slot][0]
      requires slot + 3 < ExactShift(pageShift) ==> forall w :: 0 <= w < c / 64 ==> WordAt(mem[page], w) == WORD_BUSY
      modifies this`view, nodes, mem
      ensures PoolValid()
      ensures view.role == TookView(old(view), slot, c).role
    {
      hide Core, PageBlocksOk, BlocksOk, LooksFull, FreeSet;
      var shift := slot + 3;
      ghost var m0, mem0, v0 := nodes[..], mem[..], view;
      TakeBit(pageShift, m0, mem0, v0, slot, c, page);
      TakeCore(pageShift, m0, mem0, v0, slot, c);
      TookFree(v0, slot, c);
      WordsBefore(pageShift, mem[page], shift, c, true);
      WriteBit(page, shift, c, true);
      view := TookView(v0, slot, c);
      var full := IsFull(nodes[page].slab, mem[page], shift, c);
      if full {
        TakeLeaves(pageShift, m0, mem0, v0, slot, c);
        Unlist(page);
        view := UnlistedView(view, slot, 0);
      } else {
        TakeStays(pageShift, m0, mem0, v0, slot, c);
      }
    }

    method Unlist(page: nat)
      requires page < nodes.Length && 0 <= nodes[page].prev < nodes.Length && 0 <= nodes[page].next < nodes.Length
      requires nodes[page].prev != page && nodes[page].next != page
      modifies nodes
      ensures nodes[..] == Unlisted(old(nodes[..]), page)
    {
      Unlink(page);
      nodes[page] := nodes[page].(next := NULL, prev := NULL);
    }

    /** A block of the first page on a non-empty size class list is handed out. */
    method TakeBlock(slot: nat) returns (off: nat, ghost b: Block)
      requires Valid() && slot < pageShift - 3 && view.slots[slot] != []
      modifies this`view, nodes, mem, used
      ensures Valid()
      ensures Gains(pageShift, old(view.role), view.role, b)
      ensures off == Start(pageShift, b) && b.Piece? && b.shift == slot + 3
    {
      hide Core, PoolOk, PageBlocksOk, BlocksOk, Taking, StatsOk, Gains, Live, FreeSet, AllBlocks;
      ghost var p := FirstListed(pageShift, nodes[..], mem[..], view, slot);
      var page, shift := nodes[npages + 1 + slot].next, slot + 3;
      ghost var role := view.role;
      var c := FindBlock(nodes[page].slab, mem[page], shift, view.role[page].busy);
      MarkTaken(slot, page, c);
      used[slot] := used[slot] + 1;
      off := BlockAt(pageShift, page, shift, c);
      b := Piece(page, shift, c);
      TakeGains(pageShift, role, page, c);
      StatsTaken(pageShift, old(used[..]), total[..], role, page, c);
      assert used[..] == old(used[..])[slot := old(used[slot]) + 1];
    }

    /** The bitmap of a page about to hand out its first block. */
    method WriteFreshWords(page: nat, shift: nat)
      requires page < mem.Length && PageShiftOk(pageShift) && ShiftOk(pageShift, shift)
      requires RowOk(pageShift, mem[page]) && shift < ExactShift(pageShift)
      modifies mem
      ensures forall i :: 0 <= i < mem.Length && i != page ==> mem[i] == old(mem[i])
      ensures RowOk(pageShift, mem[page]) && FreshWords(pageShift, mem[page], shift)
    {
      hide Capacity, Reserved, Words, Pow2, MaxWords;
      SmallGeometry(pageShift, shift);
      WordBusyIsOnes();
      ZeroFits();
      var n, i := Reserved(pageShift, shift) + 1, 0;
      while i < n / 64
        invariant 0 <= i <= n / 64 && RowOk(pageShift, mem[page])
        invariant forall j :: 0 <= j < mem.Length && j != page ==> mem[j] == old(mem[j])
        invariant forall w :: 0 <= w < i ==> mem[page][w] == WORD_BUSY
      {
        mem[page] := mem[page][i := WORD_BUSY];
        i := i + 1;
      }
      Pow2Monotone(n % 64, 64);
      mem[page] := mem[page][i := Pow2(n % 64) - 1];
      i := i + 1;
      while i < Words(pageShift, shift)
        invariant n / 64 < i <= Words(pageShift, shift) && RowOk(pageShift, mem[page])
        invariant forall j :: 0 <= j < mem.Length && j != page ==> mem[j] == old(mem[j])
        invariant forall w :: 0 <= w < n / 64 ==> mem[page][w] == WORD_BUSY
        invariant mem[page][n / 64] == Pow2(n % 64) - 1
        invariant forall w :: n / 64 < w < i ==> mem[page][w] == 0
      {
        mem[page] := mem[page][i := 0];
        i := i + 1;
      }
    }

    /** Whole pages are handed out as one block. */
    method AllocWhole(pages: nat) returns (page: int)
      requires Valid() && 1 <= pages
      modifies this, nodes
      ensures Valid()
      ensures page == NULL <==> !HasWindow(old(view.role), pages)
      ensures page == NULL ==> view == old(view)
      ensures page != NULL ==>
        && 0 <= page < npages
        && Gains(pageShift, old(view.role), view.role, Pages(page, pages))
        && view.role[page] == Run(pages) && view.slots == old(view.slots) && !old(view.role)[page].Chunked?
    {
      hide PageBlocksOk, Gains, StatsOk;
      ghost var m, v := nodes[..], view;
      ghost var k;
      page, k := AllocPages(pages);
      if page != NULL {
        TakesDefined(m, v, k, pages);
        TakePagesPoolOk(pageShift, m, mem[..], v, k, pages);
        TakePagesGains(pageShift, v.role, page, pages);
        StatsSame(pageShift, used[..], total[..], v.role, view.role);
      }
    }

    /** The record of a page that becomes the only one on its size class list. */
    method ListFirst(page: nat, slot: nat)
      requires Shape() && page < npages && slot < pageShift - 3
      modifies nodes
      ensures nodes[..] == CutNodes(old(nodes[..]), view, page, slot, FreshSlab(pageShift, slot + 3))
    {
      var shift, head := slot + 3, npages + 1 + slot;
      var exact := ExactShift(pageShift);
      var slab := if shift < exact then shift else if shift == exact then 1 else Compose(1, shift, 32);
      nodes[page] := Node(slab, head, head, KindOf(exact, shift));
      nodes[head] := nodes[head].(next := page);
    }

    /** Only small-block pages keep their bitmap in the page. */
    method FreshBitmap(page: nat, shift: nat)
      requires page < mem.Length && PageShiftOk(pageShift) && ShiftOk(pageShift, shift) && RowOk(pageShift, mem[page])
      modifies mem
      ensures forall i :: 0 <= i < mem.Length && i != page ==> mem[i] == old(mem[i])
      ensures RowOk(pageShift, mem[page]) && FreshWords(pageShift, mem[page], shift)
    {
      if shift < ExactShift(pageShift) {
        WriteFreshWords(page, shift);
      }
    }

    /** A page just taken is cut into blocks; its first block is handed out. */
    method CutPage(page: nat, slot: nat)
      requires Valid() && slot < pageShift - 3 && Cuttable(nodes[..], view, page, slot)
      modifies this`view, nodes, mem, total, used
      ensures Valid()
      ensures view.role == old(view.role)[page := Chunked(slot + 3, {Reserved(pageShift, slot + 3)})]
    {
      hide Core, PageBlocksOk, FreshWords, StatsOk, PerPage, FreeSet, RowOk;
      var shift := slot + 3;
      ghost var m, mem0, v := nodes[..], mem[..], view;
      Geometry(pageShift, shift);
      FreshBitmap(page, shift);
      assert mem[..] == mem0[page := mem[page]];
      CutPoolOk(pageShift, m, mem0, v, page, slot, mem[page]);
      ListFirst(page, slot);
      view := CutView(v, page, slot, {Reserved(pageShift, shift)});
      StatsCut(pageShift, used[..], total[..], v.role, page, shift, Reserved(pageShift, shift));
      CutFree(v, page, slot, {Reserved(pageShift, shift)});
      total[slot] := total[slot] + PerPage(pageShift, shift);
      used[slot] := used[slot] + 1;
      assert used[..] == old(used[..])[slot := old(used[slot]) + 1];
      assert total[..] == old(total[..])[slot := old(total[slot]) + PerPage(pageShift, shift)];
    }

    /** A request of at most half a page: a block of a listed page, or of a fresh page. */
    method AllocBlock(slot: nat) returns (off: int, ghost b: Block)
      requires Valid() && slot < pageShift - 3
      modifies this, nodes, mem, total, used, fails
      ensures Valid()
      ensures off == NULL <==> !HasFreeBlock(pageShift, old(view.role), slot + 3) && FreeSet(old(view.role)) == {}
      ensures off == NULL ==> view == old(view)
      ensures fails[..] == if off == NULL then old(fails[..])[slot := Counted(old(fails[slot]))] else old(fails[..])
      ensures off != NULL ==>
        && Gains(pageShift, old(view.role), view.role, b)
        && off == Start(pageShift, b) && b.Piece? && b.shift == slot + 3
    {
      hide Core, PoolOk, PageBlocksOk, StatsOk, Gains, FreeSet, HasFreeBlock;
      b := Pages(0, 0);
      ListedIffFreeBlock(pageShift, nodes[..], mem[..], view, slot);
      OnePageWindow(view.role);
      ListHeadOfPool(pageShift, nodes[..], mem[..], view, slot);
      var page: int := nodes[npages + 1 + slot].next;
      if nodes[page].next != page {
        off, b := TakeBlock(slot);
        return;
      }
      ghost var role := view.role;
      page := AllocWhole(1);
      if page == NULL {
        fails[slot] := Counted(fails[slot]);
        return NULL, b;
      }
      ghost var role1 := view.role;
      PoolIsCore(pageShift, nodes[..], mem[..], view);
      CutPage(page, slot);
      CutGains(pageShift, role1, page, slot + 3, Reserved(pageShift, slot + 3), role);
      b := Piece(page, slot + 3, Reserved(pageShift, slot + 3));
      off := BlockAt(pageShift, page, slot + 3, Reserved(pageShift, slot + 3));
    }

    /** A request of more than half a page: whole pages. */
    method AllocLarge(size: nat) returns (off: int, ghost b: Block)
      requires Valid() && size > PageSize(pageShift) / 2
      modifies this, nodes
      ensures Valid()
      ensures off == NULL <==> !exists pages: nat :: JustFits(pageShift, pages, size) && HasWindow(old(view.role), pages)
      ensures off == NULL ==> view == old(view)
      ensures off != NULL ==>
        && Gains(pageShift, old(view.role), view.role, b)
        && off == Start(pageShift, b) && b.Pages? && JustFits(pageShift, b.count, size)
    {
      hide Core, PoolOk, StatsOk, Gains, HasWindow, JustFits, PagesFor, PageSize;
      PagesForFit(pageShift, size);
      b := Pages(0, 0);
      var page := AllocWhole(PagesFor(pageShift, size));
      if page == NULL {
        return NULL, b;
      }
      b := Pages(page, PagesFor(pageShift, size));
      off := PageOffset(pageShift, page);
    }

    /** The size class of a request of at most half a page. */
    method ClassOf(size: nat) returns (shift: nat)
      requires PageShiftOk(pageShift) && size <= PageSize(pageShift) / 2
      ensures IsClass(size, shift) && ShiftOk(pageShift, shift)
    {
      SmallPower();
      shift := 3;
      if size > 8 {
        shift := ShiftOf(size);
        AboveEight(shift, size);
      }
      ClassFits(pageShift, size, shift);
    }

    /** A request counts in the statistics of its size class; one for whole pages in none. */
    predicate Counts(size: nat, s: nat)
      requires PageShiftOk(pageShift)
    {
      size <= PageSize(pageShift) / 2 && IsClass(size, s + 3)
    }

    /** A request fails exactly when nothing in the pool can serve it; otherwise one new
        block becomes live: up to half a page, of the least power of two from 8 on that the request
        fits; beyond, of the fewest whole pages. */
    method Alloc(size: nat) returns (off: int, ghost b: Block)
      requires Valid()
      modifies this, nodes, mem, total, used, reqs, fails
      ensures Valid()
      ensures off == NULL <==> Exhausted(pageShift, old(view.role), size)
      ensures off == NULL ==> view == old(view)
      ensures forall s :: 0 <= s < reqs.Length ==> reqs[s] == if Counts(size, s) then (old(reqs[s]) + 1) % 0x1_0000_0000 else old(reqs[s])
      ensures forall s :: 0 <= s < fails.Length ==> fails[s] == if off == NULL && Counts(size, s) then (old(fails[s]) + 1) % 0x1_0000_0000 else old(fails[s])
      ensures off != NULL ==>
        && Gains(pageShift, old(view.role), view.role, b)
        && off == Start(pageShift, b) && size <= Size(pageShift, b)
        && (b.Piece? <==> size <= PageSize(pageShift) / 2) && (b.Piece? ==> IsClass(size, b.shift))
        && (b.Piece? ==> Size(pageShift, b) == 8 || Size(pageShift, b) < 2 * size)
        && (b.Pages? ==> Size(pageShift, b) < size + PageSize(pageShift))
    {
      hide Core, PoolOk, StatsOk, Gains, HasFreeBlock, HasWindow, FreeSet, IsClass;
      if size > PageSize(pageShift) / 2 {
        off, b := AllocLarge(size);
        return;
      }
      var shift := ClassOf(size);
      OnlyClass(size, shift);
      reqs[shift - 3] := Counted(reqs[shift - 3]);
      off, b := AllocBlock(shift - 3);
      ClassSize(size, shift);
    }

    /** A page without a successor goes to the front of its size class list. */
    method Relist(page: nat, slot: nat)
      requires PagesOk(NULL) && Relistable(nodes[..], view, page) && view.role[page].shift == slot + 3
      modifies this`view, nodes
      ensures PagesOk(NULL) && view == RelistedView(old(view), page)
      ensures forall i :: 0 <= i < nodes.Length ==> nodes[i].slab == old(nodes[i]).slab
      ensures nodes[page].kind == old(nodes[page].kind)
    {
      RelistFrame(nodes[..], view, page, page);
      RelistKeepsCore(nodes[..], view, page);
      ghost var m := nodes[..];
      var head := npages + 1 + slot;
      var first, kind := nodes[head].next, nodes[page].kind;
      nodes[page] := nodes[page].(next := first, prev := head, kind := kind);
      nodes[first] := nodes[first].(prev := page, kind := kind);
      nodes[head] := nodes[head].(next := page);
      assert nodes[..] == Pushed(m, head, page, kind);
      view := RelistedView(view, page);
    }

    /** The page is listed and the bit of block c is cleared.  Block d is one that is handed out:
        c itself, or c is one of the blocks that hold the bitmap. */
    method ClearBlock(page: nat, shift: nat, c: nat, ghost d: nat)
      requires PoolValid() && Giving(pageShift, nodes[..], mem[..], view, page, d) && view.role[page].shift == shift
      requires c == d || c < Reserved(pageShift, shift)
      modifies this`view, nodes, mem
      ensures c < Capacity(pageShift, shift) && |old(mem[page])| == |mem[page]| == MaxWords(pageShift)
      ensures mem[..] == old(mem[..])[page := WordsWith(pageShift, old(mem[page]), shift, c, false)]
      ensures c == d ==> GaveBlock(pageShift, old(nodes[..]), old(view), page, c, nodes[..], mem[..], view)
      ensures c != d ==> Broken(pageShift, nodes[..], mem[..]) && !LooksEmpty(pageShift, nodes[page].slab, mem[page], shift)
    {
      hide Core, PageBlocksOk, BlocksOk, Relistable, LooksEmpty, BlockBit;
      ghost var m, mem0, v := nodes[..], mem[..], view;
      FullTest(pageShift, m, mem0, v, page, d);
      var full := if shift == ExactShift(pageShift) then nodes[page].slab == WORD_BUSY else nodes[page].next == NULL;
      if full {
        Relist(page, shift - 3);
      }
      if c == d {
        GivePoolOk(pageShift, m, mem0, v, page, c, nodes[..], view);
      } else {
        HitClears(pageShift, m, mem0, v, page, d, c);
      }
      WriteBit(page, shift, c, false);
      if c == d {
        view := GaveView(view, page, c);
      } else {
        forall w ensures !PoolOk(pageShift, nodes[..], mem[..], w) {
          NoViewFits(pageShift, nodes[..], mem[..], w, page, shift, c);
        }
      }
    }

    /** Block c of a page cut into blocks comes back; a full page is listed again first, an
        emptied page goes back to the free runs.  If c is one of the blocks that hold the bitmap,
        the pool is broken. */
    method GiveBlock(page: nat, shift: nat, c: nat)
      requires Valid() && page < npages && ShiftOk(pageShift, shift)
      requires Live(pageShift, view.role, Piece(page, shift, c)) || c < Reserved(pageShift, shift)
      requires view.role[page].Chunked? && view.role[page].shift == shift
      modifies this, nodes, mem, total, used
      ensures c >= Reserved(pageShift, shift) ==> Valid() && Gains(pageShift, view.role, old(view.role), Piece(page, shift, c))
      ensures c < Reserved(pageShift, shift) ==>
        BitGivenBack(pageShift, page, shift, c, old(mem[..]), old(used[..]), nodes[..], mem[..], used[..])
    {
      hide Core, PoolOk, LooksEmpty, StatsOk, Gains, FreeSet, Live, Giving, ListedSlots, Broken, Reserved, Capacity, WordsWith, RowOk, KeepsSlabs;
      var slot := shift - 3;
      ghost var m, mem0, v := nodes[..], mem[..], view;
      ghost var d := HandedOut(pageShift, m, mem0, v, page, shift, c);
      StatsGiven(pageShift, used[..], total[..], v.role, page, d);
      ClearBlock(page, shift, c, d);
      used[slot] := used[slot] - 1;
      assert used[..] == old(used[..])[slot := old(used[slot]) - 1];
      var empty := IsEmpty(nodes[page].slab, mem[page], shift);
      if empty {
        ReleasePage(page, shift, c, m, mem0, v);
      } else if c == d {
        GivenFree(v.role, page, c);
        GiveLoses(pageShift, v.role, page, c);
      }
    }

    /** The emptied page goes back to the free runs. */
    method ReleasePage(page: nat, shift: nat, c: nat, ghost m: seq<Node>, ghost mem0: seq<seq<nat>>, ghost v: View)
      requires Giving(pageShift, m, mem0, v, page, c) && v.role[page].shift == shift && Shape()
      requires GaveBlock(pageShift, m, v, page, c, nodes[..], mem[..], view)
      requires LooksEmpty(pageShift, nodes[page].slab, mem[page], shift)
      requires pfree == |FreeSet(v.role)| && StatsOk(pageShift, used[..], total[..], v.role[page := v.role[page].(busy := v.role[page].busy - {c})])
      requires |m| == nodes.Length && |mem0| == mem.Length && forall i :: 0 <= i < mem.Length && i != page ==> mem[i] == mem0[i]
      modifies this, nodes, total
      ensures Valid()
      ensures Gains(pageShift, view.role, v.role, Piece(page, shift, c))
    {
      hide Core, PoolOk, StatsOk, Gains, ListedSlots, RowOk, FreeSet, Giving, LooksEmpty;
      hide KeepsSlabs, Without, PerPage, FreesOnly;
      GivenFree(v.role, page, c);
      assert v.role[page].busy - {c} == {};
      var slot := shift - 3;
      ghost var k := StillListed(pageShift, m, mem0, v, page, c);
      ghost var role, m1 := view.role, nodes[..];
      SlotDistinct(m1, view, slot);
      FreePages(page, 1, slot, k);
      EmptiedPool(pageShift, m, mem0, v, page, c, m1, role, nodes[..], mem[..], view, k);
      StatsReleased(pageShift, used[..], total[..], role, view.role, page, 1);
      total[slot] := total[slot] - PerPage(pageShift, shift);
      assert total[..] == old(total[..])[slot := old(total[slot]) - PerPage(pageShift, shift)];
    }

    /** Freeing an address: a live block dies; an address that starts no live block is
        reported and nothing changes.  But the address of one of the blocks that hold a page's
        bitmap is not told from a live one: its bit is cleared, the count of used blocks falls, and
        the pool is broken.  Behind the last page there may be room for less than two more; the
        code looks for their records too, and callers never pass an address whose record would
        not lie before the first page. */
    method Free(off: int) returns (freed: bool, ghost b: Block)
      requires Valid()
      requires off < 0 || off > span || PageOf(pageShift, off) < records
      modifies this, nodes, mem, total, used
      ensures Valid() <==> !AtBitmap(pageShift, old(view.role), off)
      ensures freed <==> StartsLive(pageShift, old(view.role), off) || AtBitmap(pageShift, old(view.role), off)
      ensures freed && Valid() ==> Start(pageShift, b) == off && Gains(pageShift, view.role, old(view.role), b)
      ensures !freed ==> view == old(view) && nodes[..] == old(nodes[..]) && mem[..] == old(mem[..]) && used[..] == old(used[..])
      ensures AtBitmap(pageShift, old(view.role), off) ==>
        BitmapCleared(pageShift, old(view.role), off, old(mem[..]), old(used[..]), nodes[..], mem[..], used[..])
    {
      hide Core, PoolOk, StatsOk, Gains, Live, FreeSet, RolesFit, HitsBitmap, AtBitmap, BitmapCleared, StartsLive, PageOf, OffsetIn;
      b := Pages(0, 0);
      PoolRolesFit(pageShift, nodes[..], mem[..], view);
      if off < 0 || off > span {
        NothingOutside(pageShift, view.role, off, span);
        return false, b;
      }
      var page := PageOf(pageShift, off);
      var r := OffsetIn(pageShift, off);
      var record := if page < npages then nodes[page] else ZEROED;
      if record.kind == Whole {
        freed, b := FreeWhole(page, r, record, off);
      } else {
        AtBitmapHere(pageShift, view.role, off);
        freed, b := FreePiece(page, r, off);
      }
    }

    method FreeWhole(page: nat, r: nat, record: Node, ghost off: nat) returns (freed: bool, ghost b: Block)
      requires Valid() && record == (if page < npages then nodes[page] else ZEROED) && record.kind == Whole
      requires page == PageOf(pageShift, off) && r == OffsetIn(pageShift, off)
      modifies this, nodes
      ensures Valid() && !AtBitmap(pageShift, old(view.role), off)
      ensures freed <==> StartsLive(pageShift, old(view.role), off)
      ensures freed ==> Start(pageShift, b) == off && Gains(pageShift, view.role, old(view.role), b)
      ensures !freed ==> view == old(view) && nodes[..] == old(nodes[..])
    {
      hide Core, PoolOk, StatsOk, Gains, Live, FreeSet, RolesFit, StartsLive, HitsBitmap, PageOf, OffsetIn;
      b := Pages(0, 0);
      PoolRolesFit(pageShift, nodes[..], mem[..], view);
      if page < npages {
        WholeRecord(pageShift, nodes[..], mem[..], view, page, r, off);
      } else {
        NothingBehind(pageShift, view.role, off);
      }
      if r != 0 || record.slab < START || record.slab == PAGE_BUSY {
        return false, b;
      }
      var pages := record.slab - START;
      b := Pages(page, pages);
      ReleaseWhole(page, pages);
      freed := true;
    }

    method ReleaseWhole(page: nat, pages: nat)
      requires Valid() && page < npages && view.role[page] == Run(pages)
      modifies this, nodes
      ensures Valid()
      ensures Gains(pageShift, view.role, old(view.role), Pages(page, pages))
    {
      hide PageBlocksOk, StatsOk, Gains, FreeSet;
      ghost var m, v := nodes[..], view;
      RunBodies(m, v, page);
      FreePages(page, pages, 0, 0);
      ReleasePoolOk(pageShift, m, mem[..], v, page, pages, nodes[..], mem[..], view, 0);
      ReleaseLoses(pageShift, v.role, view.role, page, pages, Pages(page, pages));
      StatsReleased(pageShift, used[..], total[..], v.role, view.role, page, pages);
    }

    method FreePiece(page: nat, r: nat, ghost off: nat) returns (freed: bool, ghost b: Block)
      requires Valid() && page < npages && nodes[page].kind != Whole
      requires page == PageOf(pageShift, off) && r == OffsetIn(pageShift, off)
      modifies this, nodes, mem, total, used
      ensures freed <==> StartsLive(pageShift, old(view.role), off) || HitsBitmap(pageShift, old(view.role), off)
      ensures Valid() <==> !HitsBitmap(pageShift, old(view.role), off)
      ensures freed && !HitsBitmap(pageShift, old(view.role), off) ==>
        Start(pageShift, b) == off && Gains(pageShift, view.role, old(view.role), b)
      ensures !freed ==> view == old(view) && nodes[..] == old(nodes[..]) && mem[..] == old(mem[..]) && used[..] == old(used[..])
      ensures HitsBitmap(pageShift, old(view.role), off) ==>
        BitmapCleared(pageShift, old(view.role), off, old(mem[..]), old(used[..]), nodes[..], mem[..], used[..])
    {
      hide Core, PoolOk, StatsOk, Gains, FreeSet, RolesFit, StartsLive, HitsBitmap, Reserved, Start, Pow2, Live, PageOf, OffsetIn;
      b := Pages(0, 0);
      var slab, kind, words := nodes[page].slab, nodes[page].kind, mem[page];
      ghost var shift0, c0, aligned0 := ChunkedRecord(pageShift, nodes[..], mem[..], view, page, r, off);
      var shift := if kind == Exact then ExactShift(pageShift) else Low(slab, 4);
      if r % Pow2(shift) != 0 {
        return false, b;
      }
      var c := r / Pow2(shift);
      var taken := match kind
        case Small => Bit(WordAt(words, c / 64), c % 64)
        case Exact => Bit(slab, c)
        case Big => Bit(slab, 32 + c)
        case Whole => false;
      if !taken {
        return false, b;
      }
      b := Piece(page, shift, c);
      GiveBlock(page, shift, c);
      assert Broken(pageShift, nodes[..], mem[..]) ==> !PoolOk(pageShift, nodes[..], mem[..], view);
      freed := true;
    }

    /** A fresh pool in the memory from first to end: one free run of all pages.  The run's tail
        pointer is not written; no page behind it could look it up. */
    constructor (pageShift: nat, first: nat, end: nat)
      requires HasMemory(pageShift, first, end) && end < 2 * START && LayoutOf(pageShift, first, end).npages > 0
      ensures Valid()
      ensures this.pageShift == pageShift && npages == LayoutOf(pageShift, first, end).npages
      ensures span == end - LayoutOf(pageShift, first, end).start && records == LayoutOf(pageShift, first, end).room
      ensures forall b :: !Live(pageShift, view.role, b)
      ensures pfree == npages
    {
      hide Pow2, LayoutOf;
      LayoutOk(pageShift, first, end);
      FewPages(pageShift, first, end);
      var layout := LayoutOf(pageShift, first, end);
      var npages := layout.npages;
      this.pageShift, this.npages, this.span := pageShift, npages, end - layout.start;
      records := layout.room;
      var n := pageShift - 3;
      nodes := new Node[npages + 1 + n](i =>
        if i == 0 then Node(npages, npages, npages, Whole)
        else if i == npages then Node(0, 0, NULL, Whole)
        else if i > npages then Node(0, i, NULL, Whole)
        else ZEROED);
      mem := new seq<nat>[npages](_ => seq(MaxWords(pageShift), _ => 0));
      total := new nat[n](_ => 0);
      used := new nat[n](_ => 0);
      reqs := new nat[n](_ => 0);
      fails := new nat[n](_ => 0);
      pfree := npages;
      view := FreshView(pageShift, npages);
      new;
      FreshPool(pageShift, nodes[..], mem[..], npages);
      FreshFree(pageShift, npages);
      FreshStats(pageShift, used[..], total[..], npages);
    }
  }

  /** Any pool with a free page can be broken so: by asking for a small block and freeing the start of
      the page it is in. */
  method BreakPool(pool: Pool) returns (off: int, freed: bool)
    requires pool.Valid() && FreeSet(pool.view.role) != {}
    modifies pool, pool.nodes, pool.mem, pool.total, pool.used, pool.reqs, pool.fails
    ensures freed && !pool.Valid()
  {
    ghost var b;
    SmallRequest(pool.pageShift);
    off, b := pool.Alloc(8);
    EightInPage(pool.pageShift, pool.nodes[..], pool.mem[..], pool.view, b);
    hide StatsOk, PoolOk, Core, Gains, AtBitmap, PageOf;
    off := PageOffset(pool.pageShift, PageOf(pool.pageShift, off));
    freed, b := pool.Free(off);
  }
}
