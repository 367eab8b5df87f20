/** What the slab allocator promises its callers: which blocks are live, how they lie in
    the pool, and what the counters say about them. */
module SlabModel {
  import opened Arithmetic
  import opened Bits
  import opened PageLists
  import opened PageRuns
  import opened Ranges
  import opened SlabBlocks

  function PageSize(pageShift: nat): nat { Pow2(pageShift) }

  /** The page an offset lies in, and the offset within that page. */
  function PageOf(pageShift: nat, off: nat): nat { Quotient(off, PageSize(pageShift)) }

  function OffsetIn(pageShift: nat, off: nat): nat { Remainder(off, PageSize(pageShift)) }

  /** Byte offset, from the start of the first page, of block c of page i. */
  function BlockAt(pageShift: nat, i: nat, shift: nat, c: nat): nat {
    i * PageSize(pageShift) + c * Pow2(shift)
  }

  /** A block that is handed out: whole pages, or one block of a page cut into blocks. */
  datatype Block = Pages(first: nat, count: nat) | Piece(page: nat, shift: nat, index: nat)

  ghost predicate Live(pageShift: nat, role: seq<Role>, b: Block)
    requires PageShiftOk(pageShift)
  {
    match b
    case Pages(first, count) => first < |role| && role[first] == Run(count)
    case Piece(page, shift, index) =>
      page < |role| && role[page].Chunked? && role[page].shift == shift && ShiftOk(pageShift, shift) && index in role[page].busy
  }

  function Start(pageShift: nat, b: Block): nat {
    match b
    case Pages(first, _) => first * PageSize(pageShift)
    case Piece(page, shift, index) => BlockAt(pageShift, page, shift, index)
  }

  function Size(pageShift: nat, b: Block): nat {
    match b
    case Pages(_, count) => count * PageSize(pageShift)
    case Piece(_, shift, _) => Pow2(shift)
  }

  function FirstPage(b: Block): nat {
    match b
    case Pages(first, _) => first
    case Piece(page, _, _) => page
  }

  function PageCount(b: Block): nat {
    match b
    case Pages(_, count) => count
    case Piece(_, _, _) => 1
  }

  /** A page's roles restricted to sizes and blocks that exist. */
  ghost predicate BusyOk(pageShift: nat, role: seq<Role>, i: nat)
    requires PageShiftOk(pageShift) && i < |role|
  {
    role[i].Chunked? ==> ShiftOk(pageShift, role[i].shift) && role[i].busy <= AllBlocks(pageShift, role[i].shift)
  }

  ghost predicate RolesFit(pageShift: nat, role: seq<Role>)
    requires PageShiftOk(pageShift)
  {
    RolesOk(role) && forall i :: 0 <= i < |role| ==> BusyOk(pageShift, role, i)
  }

  /** A piece lies inside its page, behind the page's bitmap. */
  lemma PieceInPage(pageShift: nat, shift: nat, c: nat)
    requires ShiftOk(pageShift, shift) && c in AllBlocks(pageShift, shift)
    ensures Reserved(pageShift, shift) * Pow2(shift) <= c * Pow2(shift)
    ensures c * Pow2(shift) + Pow2(shift) <= PageSize(pageShift)
  {
    assert Reserved(pageShift, shift) <= c < Capacity(pageShift, shift);
    BlocksFillPage(pageShift, shift);
    hide *;
    UnitInside(Reserved(pageShift, shift), c, Capacity(pageShift, shift), Pow2(shift));
  }

  lemma BlocksFillPage(pageShift: nat, shift: nat)
    requires ShiftOk(pageShift, shift)
    ensures Capacity(pageShift, shift) * Pow2(shift) == PageSize(pageShift)
  {
    Pow2Add(pageShift - shift, shift);
  }

  /** A live block lies inside its own pages. */
  lemma LiveInPages(pageShift: nat, role: seq<Role>, b: Block)
    requires PageShiftOk(pageShift) && RolesFit(pageShift, role) && Live(pageShift, role, b)
    ensures FirstPage(b) * PageSize(pageShift) <= Start(pageShift, b)
    ensures Start(pageShift, b) + Size(pageShift, b) <= FirstPage(b) * PageSize(pageShift) + PageCount(b) * PageSize(pageShift)
    ensures FirstPage(b) + PageCount(b) <= |role|
  {
    if b.Piece? {
      LivePieceFits(pageShift, role, b);
    } else {
      assert RoleOk(role, b.first);
    }
  }

  lemma LivePieceFits(pageShift: nat, role: seq<Role>, b: Block)
    requires PageShiftOk(pageShift) && RolesFit(pageShift, role) && Live(pageShift, role, b) && b.Piece?
    ensures b.page < |role| && Size(pageShift, b) == Pow2(b.shift)
    ensures b.page * PageSize(pageShift) <= Start(pageShift, b)
    ensures Start(pageShift, b) + Size(pageShift, b) <= b.page * PageSize(pageShift) + 1 * PageSize(pageShift)
  {
    hide Pow2, Range, RolesOk;
    assert BusyOk(pageShift, role, b.page);
    PieceInPage(pageShift, b.shift, b.index);
  }

  /** Blocks of different first pages lie on different pages. */
  lemma LivePagesApart(pageShift: nat, role: seq<Role>, a: Block, b: Block)
    requires PageShiftOk(pageShift) && RolesFit(pageShift, role)
    requires Live(pageShift, role, a) && Live(pageShift, role, b) && FirstPage(a) < FirstPage(b)
    ensures FirstPage(a) + PageCount(a) <= FirstPage(b)
  {
    if a.Pages? {
      OutsideRun(role, a.first, FirstPage(b));
    }
  }

  lemma LiveInOrder(pageShift: nat, role: seq<Role>, a: Block, b: Block)
    requires PageShiftOk(pageShift) && RolesFit(pageShift, role)
    requires Live(pageShift, role, a) && Live(pageShift, role, b)
    requires FirstPage(a) < FirstPage(b) || (FirstPage(a) == FirstPage(b) && a.Piece? && b.Piece? && a.index < b.index)
    ensures Start(pageShift, a) + Size(pageShift, a) <= Start(pageShift, b)
  {
    LiveInPages(pageShift, role, a);
    LiveInPages(pageShift, role, b);
    if FirstPage(a) < FirstPage(b) {
      LivePagesApart(pageShift, role, a, b);
      SpanBefore(FirstPage(a), PageCount(a), FirstPage(b), PageSize(pageShift));
    } else {
      SpanBefore(a.index, 1, b.index, Pow2(a.shift));
    }
  }

  /** Live blocks lie inside the pool and do not overlap. */
  lemma LiveDisjoint(pageShift: nat, role: seq<Role>, a: Block, b: Block)
    requires PageShiftOk(pageShift) && RolesFit(pageShift, role)
    requires Live(pageShift, role, a) && Live(pageShift, role, b) && a != b
    ensures Start(pageShift, a) + Size(pageShift, a) <= |role| * PageSize(pageShift)
    ensures || Start(pageShift, a) + Size(pageShift, a) <= Start(pageShift, b)
            || Start(pageShift, b) + Size(pageShift, b) <= Start(pageShift, a)
  {
    LiveInPages(pageShift, role, a);
    SpanBefore(FirstPage(a), PageCount(a), |role|, PageSize(pageShift));
    if FirstPage(a) < FirstPage(b) || (FirstPage(a) == FirstPage(b) && a.Piece? && b.Piece? && a.index < b.index) {
      LiveInOrder(pageShift, role, a, b);
    } else {
      LiveInOrder(pageShift, role, b, a);
    }
  }

  /** Page i's in-page bitmap ends inside page i. */
  lemma BitmapInPage(pageShift: nat, shift: nat)
    requires ShiftOk(pageShift, shift) && shift < ExactShift(pageShift)
    ensures 8 * Words(pageShift, shift) <= Reserved(pageShift, shift) * Pow2(shift) <= PageSize(pageShift)
  {
    BitmapFits(pageShift, shift);
    SmallGeometry(pageShift, shift);
    hide Pow2, Words, Reserved;
    Pow2Add(pageShift - shift, shift);
    MulMono(Reserved(pageShift, shift), Capacity(pageShift, shift), Pow2(shift));
  }

  /** No live block touches the words a small-block page keeps at its start. */
  lemma LiveSparesBitmap(pageShift: nat, role: seq<Role>, b: Block, i: nat)
    requires PageShiftOk(pageShift) && RolesFit(pageShift, role) && Live(pageShift, role, b)
    requires i < |role| && role[i].Chunked? && ShiftOk(pageShift, role[i].shift) && role[i].shift < ExactShift(pageShift)
    ensures || Start(pageShift, b) + Size(pageShift, b) <= i * PageSize(pageShift)
            || i * PageSize(pageShift) + 8 * Words(pageShift, role[i].shift) <= Start(pageShift, b)
  {
    LiveInPages(pageShift, role, b);
    BitmapInPage(pageShift, role[i].shift);
    var j := FirstPage(b);
    if j == i {
      assert BusyOk(pageShift, role, i);
      PieceInPage(pageShift, b.shift, b.index);
    } else if j < i {
      if b.Pages? {
        OutsideRun(role, j, i);
      }
      SpanBefore(j, PageCount(b), i, PageSize(pageShift));
    } else {
      SpanBefore(i, 1, j, PageSize(pageShift));
    }
  }

  // ---- free pages

  function FreeSet(role: seq<Role>): set<nat> {
    set i: nat | i < |role| && IsFree(role[i])
  }

  /** Page i belongs to the free run at p. */
  predicate InRun(role: seq<Role>, p: nat, i: nat) {
    p < |role| && role[p].Free? && p <= i < p + role[p].len
  }

  predicate AllFreeRuns(role: seq<Role>, order: seq<nat>) {
    forall j :: 0 <= j < |order| ==> order[j] < |role| && role[order[j]].Free?
  }

  function RunLengths(role: seq<Role>, order: seq<nat>): nat
    requires AllFreeRuns(role, order)
  {
    if order == [] then 0 else role[order[0]].len + RunLengths(role, order[1..])
  }

  lemma FreePagesAreCovered(role: seq<Role>, i: nat) returns (h: nat)
    requires RolesOk(role) && i < |role| && IsFree(role[i])
    ensures InRun(role, h, i)
  {
    assert RoleOk(role, i);
    h := if role[i].Free? then i else role[i].head;
  }

  /** The pages are those of the listed runs. */
  ghost predicate Covers(role: seq<Role>, order: seq<nat>, pages: set<nat>) {
    && (forall i :: i in pages ==> exists h :: h in order && InRun(role, h, i))
    && (forall h, i :: h in order && InRun(role, h, i) ==> i in pages)
  }

  /** Without the first run, the others cover what is left. */
  lemma CoversRest(role: seq<Role>, order: seq<nat>, pages: set<nat>)
    requires RolesOk(role) && Distinct(order) && AllFreeRuns(role, order) && order != [] && Covers(role, order, pages)
    ensures var first := Range(order[0], order[0] + role[order[0]].len);
            first <= pages && Covers(role, order[1..], pages - first)
  {
    var p, rest := order[0], order[1..];
    var first := Range(p, p + role[p].len);
    assert p in order;
    forall i | i in first ensures i in pages {
      assert InRun(role, p, i);
    }
    hide RolesOk, Distinct, InRun, AllFreeRuns;
    forall i | i in pages - first ensures exists h :: h in rest && InRun(role, h, i) {
      var h := InRest(role, order, i);
    }
    forall h, i | h in rest && InRun(role, h, i) ensures i in pages - first {
      FirstOnce(order, h);
      NotInFirst(role, order, h, i);
    }
  }

  lemma InRest(role: seq<Role>, order: seq<nat>, i: nat) returns (h: nat)
    requires AllFreeRuns(role, order) && order != [] && (exists h :: h in order && InRun(role, h, i))
    requires i !in Range(order[0], order[0] + role[order[0]].len)
    ensures h in order[1..] && InRun(role, h, i)
  {
    h :| h in order && InRun(role, h, i);
    assert order == [order[0]] + order[1..];
  }

  lemma NotInFirst(role: seq<Role>, order: seq<nat>, h: nat, i: nat)
    requires RolesOk(role) && AllFreeRuns(role, order) && order != [] && h in order && h != order[0] && InRun(role, h, i)
    ensures i !in Range(order[0], order[0] + role[order[0]].len)
  {
    OutsideRun(role, order[0], h);
  }

  lemma FirstOnce(order: seq<nat>, h: nat)
    requires Distinct(order) && order != [] && h in order[1..]
    ensures h in order && h != order[0]
  {
    var k: nat :| k < |order| - 1 && order[1..][k] == h;
    assert order[k + 1] == h;
  }

  lemma RestDistinct(order: seq<nat>)
    requires Distinct(order) && order != []
    ensures Distinct(order[1..])
  {
  }

  /** Pages covered by distinct listed runs are counted by the lengths of those runs. */
  lemma {:induction false} CoveredSize(role: seq<Role>, order: seq<nat>, pages: set<nat>)
    requires RolesOk(role) && Distinct(order) && AllFreeRuns(role, order) && Covers(role, order, pages)
    ensures |pages| == RunLengths(role, order)
  {
    if order == [] {
      assert pages == {};
    } else {
      var first := Range(order[0], order[0] + role[order[0]].len);
      CoversRest(role, order, pages);
      RestDistinct(order);
      hide RolesOk, Covers, Distinct;
      CoveredSize(role, order[1..], pages - first);
      SizeOfParts(pages, first);
    }
  }

  lemma SizeOfParts(pages: set<nat>, first: set<nat>)
    requires first <= pages
    ensures |pages| == |first| + |pages - first|
  {
    assert pages == first + (pages - first) && first !! (pages - first);
  }

  /** Every free page is on exactly one run of the free list, and the free pages are counted by the
      lengths of these runs. */
  lemma FreeListCountsFreePages(nodes: seq<Node>, v: View)
    requires Core(nodes, v, NULL)
    ensures Distinct(v.order) && AllFreeRuns(v.role, v.order)
    ensures forall i :: i in FreeSet(v.role) <==> exists h :: h in v.order && InRun(v.role, h, i)
    ensures forall h, k, i :: InRun(v.role, h, i) && InRun(v.role, k, i) ==> h == k
    ensures |FreeSet(v.role)| == RunLengths(v.role, v.order)
  {
    forall h, k, i | InRun(v.role, h, i) && InRun(v.role, k, i) ensures h == k {
      OutsideRun(v.role, h, k);
      OutsideRun(v.role, k, h);
    }
    forall j | 0 <= j < |v.order| ensures v.order[j] < |v.role| && v.role[v.order[j]].Free? {
      assert v.order[j] in v.order;
    }
    forall i | i in FreeSet(v.role) ensures exists h :: h in v.order && InRun(v.role, h, i) {
      var h := FreePagesAreCovered(v.role, i);
      assert h in v.order;
    }
    forall h, i | h in v.order && InRun(v.role, h, i) ensures i in FreeSet(v.role) {
      assert RoleOk(v.role, h);
    }
    assert Covers(v.role, v.order, FreeSet(v.role));
    CoveredSize(v.role, v.order, FreeSet(v.role));
  }

  /** A window of free pages lies within one free run. */
  lemma {:induction false} WindowInOneRun(role: seq<Role>, a: nat, pages: nat, h: nat)
    requires RolesOk(role) && Coalesced(role, NULL)
    requires 1 <= pages && a + pages <= |role|
    requires forall i :: a <= i < a + pages ==> IsFree(role[i])
    requires h < |role| && role[h].Free? && h <= a < h + role[h].len
    ensures a + pages <= h + role[h].len
  {
    var e := h + role[h].len;
    assert RoleOk(role, h) && GapAfter(role, h, NULL);
    if e < a + pages {
      assert IsFree(role[e]) && RoleOk(role, e);
      OutsideRun(role, h, e);
      var g := role[e].head;
      OutsideRun(role, g, h);
    }
  }

  ghost predicate HasWindow(role: seq<Role>, pages: nat) {
    exists a: nat :: IsWindow(role, a, pages)
  }

  ghost predicate IsWindow(role: seq<Role>, a: nat, pages: nat) {
    a + pages <= |role| && forall i :: a <= i < a + pages ==> IsFree(role[i])
  }

  /** No run listed before the k-th is long enough. */
  predicate FirstFit(v: View, k: nat, pages: nat) {
    k < |v.order| && forall j :: 0 <= j < k ==> v.order[j] < |v.role| && v.role[v.order[j]].Free? && v.role[v.order[j]].len < pages
  }

  /** The free list has a run of at least that many pages exactly when that many free pages
      lie next to each other anywhere. */
  lemma WindowIffRun(role: seq<Role>, order: seq<nat>, pages: nat)
    requires RolesOk(role) && Coalesced(role, NULL) && ListsFreeRuns(role, order, NULL) && 1 <= pages
    ensures HasWindow(role, pages) <==> exists h :: h in order && h < |role| && role[h].Free? && pages <= role[h].len
  {
    if HasWindow(role, pages) {
      var a: nat :| IsWindow(role, a, pages);
      assert IsFree(role[a]);
      var h := FreePagesAreCovered(role, a);
      WindowInOneRun(role, a, pages, h);
      assert h in order;
    }
    if h :| h in order && h < |role| && role[h].Free? && pages <= role[h].len {
      assert RoleOk(role, h);
      assert IsWindow(role, h, pages);
    }
  }

  /** Handing out pages of a run removes exactly those from the free pages. */
  lemma CarvedFreeSet(role: seq<Role>, p: nat, pages: nat)
    requires RolesOk(role) && p < |role| && role[p].Free? && 1 <= pages <= role[p].len
    ensures FreeSet(Carved(role, p, pages)) == FreeSet(role) - Range(p, p + pages)
    ensures |FreeSet(Carved(role, p, pages))| == |FreeSet(role)| - pages
  {
    var role' := Carved(role, p, pages);
    assert RoleOk(role, p);
    forall i: nat ensures i in FreeSet(role') <==> i in FreeSet(role) && i !in Range(p, p + pages) {
      if i < |role| {
        OutsideRun(role, p, i);
      }
    }
    assert Range(p, p + pages) <= FreeSet(role);
    assert |FreeSet(role) - Range(p, p + pages)| == |FreeSet(role)| - |Range(p, p + pages)|;
  }

  /** The pages p to p + len - 1 become free; every page in use elsewhere keeps its role. */
  ghost predicate FreesOnly(role: seq<Role>, role': seq<Role>, p: nat, len: nat) {
    && |role'| == |role|
    && forall i :: 0 <= i < |role| ==>
         && (IsFree(role'[i]) <==> IsFree(role[i]) || p <= i < p + len)
         && (!IsFree(role'[i]) ==> role'[i] == role[i])
  }

  /** Joining free runs afterwards makes no difference. */
  lemma FreesOnlyThen(role: seq<Role>, role1: seq<Role>, role2: seq<Role>, p: nat, len: nat)
    requires FreesOnly(role, role1, p, len) && FreesOnly(role1, role2, p, 0)
    ensures FreesOnly(role, role2, p, len)
    ensures FreeSet(role2) == FreeSet(role1)
  {
  }

  lemma DetachedRunRoles(role: seq<Role>, p: nat)
    requires RolesOk(role) && p < |role| && role[p].Run?
    ensures FreesOnly(role, Freed(role, p), p, role[p].len) && p + role[p].len <= |role|
    ensures forall i :: p <= i < p + role[p].len ==> !IsFree(role[i])
    ensures forall i :: p < i < p + role[p].len ==> role[i].RunBody?
  {
    assert RoleOk(role, p);
    forall i | 0 <= i < |role|
      ensures IsFree(Freed(role, p)[i]) <==> IsFree(role[i]) || p <= i < p + role[p].len
      ensures p <= i < p + role[p].len ==> !IsFree(role[i])
    {
      OutsideRun(role, p, i);
    }
  }

  lemma MergedRoles(role: seq<Role>, a: nat)
    requires RolesOk(role)
    requires a < |role| && role[a].Free? && a + role[a].len < |role| && role[a + role[a].len].Free?
    ensures FreesOnly(role, MergedRole(role, a), a, 0)
  {
    forall i | 0 <= i < |role|
      ensures IsFree(MergedRole(role, a)[i]) <==> IsFree(role[i])
      ensures !IsFree(role[i]) ==> MergedRole(role, a)[i] == role[i]
    {
      MergedAt(role, a, i);
    }
  }

  /** The words of the pages cut into blocks are unchanged, except at page p. */
  ghost predicate KeepsSlabs(nodes: seq<Node>, nodes': seq<Node>, role: seq<Role>, p: int) {
    && |nodes'| == |nodes|
    && forall i :: 0 <= i < |role| && i < |nodes| && i != p && role[i].Chunked? ==> nodes'[i].slab == nodes[i].slab
  }

  /** Joining two neighbouring free runs, all in all. */
  lemma MergeStep(nodes: seq<Node>, v: View, x: nat, a: nat, k: nat)
    requires Neighbours(nodes, v, x, a, k)
    ensures a < |v.role| && v.role[a].Free? && a + v.role[a].len < |v.role| && v.role[a + v.role[a].len].Free?
    ensures k < |v.order| && v.order[k] < |v.role| && |nodes| == |v.role| + 1 + |v.slots|
    ensures var b := a + v.role[a].len; var y := v.order[k];
            && 0 <= nodes[y].prev < |nodes| && 0 <= nodes[y].next < |nodes|
            && Core(Merged(nodes, a, b, y), v.(role := MergedRole(v.role, a), order := Without(v.order, k)), a)
            && FreesOnly(v.role, MergedRole(v.role, a), a, 0)
            && KeepsSlabs(nodes, Merged(nodes, a, b, y), v.role, NULL)
  {
    NeighboursFacts(nodes, v, x, a, k);
    MergeKeepsCore(nodes, v, x, a, k);
    MergedRoles(v.role, a);
    forall i | 0 <= i < |v.role| && v.role[i].Chunked?
      ensures Merged(nodes, a, a + v.role[a].len, v.order[k])[i].slab == nodes[i].slab
    {
      MergedFrame(nodes, v, x, a, k, i);
    }
  }

  lemma KeepsSlabsThen(nodes: seq<Node>, nodes1: seq<Node>, nodes2: seq<Node>, role: seq<Role>, role1: seq<Role>, p: nat, len: nat)
    requires KeepsSlabs(nodes, nodes1, role, p) && KeepsSlabs(nodes1, nodes2, role1, NULL)
    requires FreesOnly(role, role1, p, len) && forall i :: p < i < p + len && i < |role| ==> role[i].RunBody?
    ensures KeepsSlabs(nodes, nodes2, role, p)
  {
  }

  lemma FreesOnlyCount(role: seq<Role>, role': seq<Role>, p: nat, len: nat)
    requires FreesOnly(role, role', p, len) && p + len <= |role|
    requires forall i :: p <= i < p + len ==> !IsFree(role[i])
    ensures |FreeSet(role')| == |FreeSet(role)| + len
  {
    assert FreeSet(role') == FreeSet(role) + Range(p, p + len);
    assert FreeSet(role) !! Range(p, p + len);
  }

  // ---- statistics of the size classes

  /** How many blocks a page of a size class can hand out. */
  function PerPage(pageShift: nat, shift: nat): nat
    requires ShiftOk(pageShift, shift)
  {
    Geometry(pageShift, shift);
    Capacity(pageShift, shift) - Reserved(pageShift, shift)
  }

  lemma PerPageCounts(pageShift: nat, shift: nat)
    requires ShiftOk(pageShift, shift)
    ensures PerPage(pageShift, shift) == |AllBlocks(pageShift, shift)|
  {
    Geometry(pageShift, shift);
  }

  /** What a page contributes to a counter of one size class. */
  datatype Counter = Used | Total(perPage: nat)

  function Weight(c: Counter, shift: nat, r: Role): nat {
    if r.Chunked? && r.shift == shift then (if c.Used? then |r.busy| else c.perPage) else 0
  }

  function Sum(c: Counter, shift: nat, role: seq<Role>): nat {
    if role == [] then 0 else Sum(c, shift, role[..|role| - 1]) + Weight(c, shift, role[|role| - 1])
  }

  lemma {:induction false} SumSame(c: Counter, shift: nat, role: seq<Role>, role': seq<Role>)
    requires |role| == |role'|
    requires forall i :: 0 <= i < |role| ==> Weight(c, shift, role'[i]) == Weight(c, shift, role[i])
    ensures Sum(c, shift, role') == Sum(c, shift, role)
  {
    if role != [] {
      SumSame(c, shift, role[..|role| - 1], role'[..|role| - 1]);
    }
  }

  lemma {:induction false} SumChange(c: Counter, shift: nat, role: seq<Role>, role': seq<Role>, k: nat)
    requires |role| == |role'| && k < |role|
    requires forall i :: 0 <= i < |role| && i != k ==> Weight(c, shift, role'[i]) == Weight(c, shift, role[i])
    ensures Sum(c, shift, role') == Sum(c, shift, role) - Weight(c, shift, role[k]) + Weight(c, shift, role'[k])
  {
    if k == |role| - 1 {
      SumSame(c, shift, role[..|role| - 1], role'[..|role| - 1]);
    } else {
      SumChange(c, shift, role[..|role| - 1], role'[..|role| - 1], k);
    }
  }

  lemma {:induction false} SumZero(c: Counter, shift: nat, role: seq<Role>)
    requires forall i :: 0 <= i < |role| ==> !role[i].Chunked?
    ensures Sum(c, shift, role) == 0
  {
    if role != [] {
      SumZero(c, shift, role[..|role| - 1]);
    }
  }

  /** `used` counts the blocks handed out, `total` what the pages of the class can hold. */
  ghost predicate StatsOk(pageShift: nat, used: seq<nat>, total: seq<nat>, role: seq<Role>)
    requires PageShiftOk(pageShift)
  {
    && |used| == |total| == pageShift - 3
    && (forall s :: 0 <= s < |used| ==> used[s] == Sum(Used, s + 3, role))
    && (forall s :: 0 <= s < |total| ==> total[s] == Sum(Total(PerPage(pageShift, s + 3)), s + 3, role))
  }

  // ---- the pool when nothing is handed out

  /** Every page cut into blocks has a block handed out, and is listed unless it is full. */
  ghost predicate PageBlocksOk(pageShift: nat, nodes: seq<Node>, mem: seq<seq<nat>>, v: View, i: nat)
    requires PageShiftOk(pageShift) && i < |v.role| <= |nodes| && |mem| == |v.role|
  {
    v.role[i].Chunked? ==>
      && ShiftOk(pageShift, v.role[i].shift) && v.role[i].shift - 3 < |v.slots|
      && BlocksOk(pageShift, nodes[i].slab, mem[i], v.role[i].shift, v.role[i].busy)
      && v.role[i].busy != {}
      && (i in v.slots[v.role[i].shift - 3] <==> v.role[i].busy != AllBlocks(pageShift, v.role[i].shift))
  }

  ghost predicate PoolOk(pageShift: nat, nodes: seq<Node>, mem: seq<seq<nat>>, v: View) {
    && PageShiftOk(pageShift)
    && v.exact == ExactShift(pageShift) && |v.slots| == pageShift - 3
    && |mem| == |v.role|
    && (forall i :: 0 <= i < |mem| ==> RowOk(pageShift, mem[i]))
    && Core(nodes, v, NULL)
    && forall i :: 0 <= i < |v.role| ==> PageBlocksOk(pageShift, nodes, mem, v, i)
  }

  /** The list of a size class is empty, and its head points to itself. */
  predicate ClassEmpty(nodes: seq<Node>, v: View, s: nat) {
    s < |v.slots| && |nodes| == |v.role| + 1 + |v.slots| && v.slots[s] == [] && nodes[|v.role| + 1 + s].next == |v.role| + 1 + s
  }

  /** With no live block, the pool is one free run again, whatever the history: every page
      on it, every size class empty, every counter back. */
  lemma NothingLiveMeansPristine(pageShift: nat, nodes: seq<Node>, mem: seq<seq<nat>>, v: View)
    requires PoolOk(pageShift, nodes, mem, v) && |v.role| > 0
    requires forall b :: !Live(pageShift, v.role, b)
    ensures v.role[0] == Free(|v.role|) && v.order == [0]
    ensures nodes[0].slab == |v.role| && nodes[|v.role|].next == 0
    ensures forall i :: 0 < i < |v.role| ==> v.role[i] == FreeBody(0)
    ensures |FreeSet(v.role)| == |v.role|
    ensures forall s :: 0 <= s < |v.slots| ==> ClassEmpty(nodes, v, s)
    ensures forall c, s :: Sum(c, s, v.role) == 0
  {
    hide PoolOk, Live, FreeSet, Sum;
    PristinePages(pageShift, nodes, mem, v);
    PristineLists(pageShift, nodes, mem, v);
    PristineSums(v.role);
  }

  lemma PristineSums(role: seq<Role>)
    requires forall i :: 0 <= i < |role| ==> !role[i].Chunked?
    ensures forall c, s :: Sum(c, s, role) == 0
  {
    forall c, s ensures Sum(c, s, role) == 0 {
      SumZero(c, s, role);
    }
  }

  lemma PristineLists(pageShift: nat, nodes: seq<Node>, mem: seq<seq<nat>>, v: View)
    requires PoolOk(pageShift, nodes, mem, v) && |nodes| == |v.role| + 1 + |v.slots|
    requires forall i :: 0 <= i < |v.role| ==> IsFree(v.role[i])
    ensures forall s :: 0 <= s < |v.slots| ==> ClassEmpty(nodes, v, s)
  {
    hide PoolOk;
    forall s | 0 <= s < |v.slots| ensures ClassEmpty(nodes, v, s) {
      PristineList(pageShift, nodes, mem, v, s);
    }
  }

  lemma PristinePages(pageShift: nat, nodes: seq<Node>, mem: seq<seq<nat>>, v: View)
    requires PoolOk(pageShift, nodes, mem, v) && |v.role| > 0
    requires forall b :: !Live(pageShift, v.role, b)
    ensures |nodes| == |v.role| + 1 + |v.slots|
    ensures v.role[0] == Free(|v.role|) && v.order == [0]
    ensures nodes[0].slab == |v.role| && nodes[|v.role|].next == 0
    ensures forall i :: 0 < i < |v.role| ==> v.role[i] == FreeBody(0)
    ensures |FreeSet(v.role)| == |v.role|
  {
    forall i | 0 <= i < |v.role| ensures IsFree(v.role[i]) {
      AllPagesFree(pageShift, nodes, mem, v, i);
    }
    hide PageBlocksOk, SlotListsOk, Linked;
    OneRunLeft(v.role);
    assert forall i: nat :: i in v.order <==> i == 0;
    HeadPointsTo(nodes, |v.role|, v.order);
    OnlyMember(v.order, 0);
    assert NodeOk(nodes, v.role, 0, NULL);
    assert FreeSet(v.role) == Range(0, |v.role|);
  }

  lemma PristineList(pageShift: nat, nodes: seq<Node>, mem: seq<seq<nat>>, v: View, s: nat)
    requires PoolOk(pageShift, nodes, mem, v) && s < |v.slots| && |nodes| == |v.role| + 1 + |v.slots|
    requires forall i :: 0 <= i < |v.role| ==> IsFree(v.role[i])
    ensures ClassEmpty(nodes, v, s)
  {
    assert SlotOk(nodes, v.role, s, v.slots[s]);
    hide PoolOk, Linked;
    HeadPointsTo(nodes, |v.role| + 1 + s, v.slots[s]);
  }

  /** What a list's head points to. */
  lemma HeadPointsTo(nodes: seq<Node>, head: nat, order: seq<nat>)
    requires Linked(nodes, head, order)
    ensures nodes[head].next == if order == [] then head else order[0]
  {
    assert nodes[At(head, order, -1)].next == Succ(head, order, -1);
  }

  lemma OnlyMember(order: seq<nat>, x: nat)
    requires Distinct(order) && forall i: nat :: i in order <==> i == x
    ensures order == [x]
  {
    assert x in order;
    assert |order| > 1 ==> order[0] != order[1];
    forall k | 0 <= k < |order| ensures order[k] == x {
      assert order[k] in order;
    }
  }

  lemma AllPagesFree(pageShift: nat, nodes: seq<Node>, mem: seq<seq<nat>>, v: View, i: nat)
    requires PoolOk(pageShift, nodes, mem, v) && i < |v.role|
    requires forall b :: !Live(pageShift, v.role, b)
    ensures IsFree(v.role[i])
  {
    assert RoleOk(v.role, i) && PageBlocksOk(pageShift, nodes, mem, v, i);
    match v.role[i]
    case Run(len) => assert Live(pageShift, v.role, Pages(i, len));
    case RunBody(h) => assert Live(pageShift, v.role, Pages(h, v.role[h].len));
    case Chunked(shift, busy) =>
      var c :| c in busy;
      assert Live(pageShift, v.role, Piece(i, shift, c));
    case _ =>
  }

  lemma OneRunLeft(role: seq<Role>)
    requires RolesOk(role) && Coalesced(role, NULL) && |role| > 0
    requires forall i :: 0 <= i < |role| ==> IsFree(role[i])
    ensures role[0] == Free(|role|)
    ensures forall i :: 0 < i < |role| ==> role[i] == FreeBody(0)
  {
    assert RoleOk(role, 0) && GapAfter(role, 0, NULL);
    assert IsFree(role[0]);
    var e := role[0].len;
    if e < |role| {
      assert IsFree(role[e]) && RoleOk(role, e);
      OutsideRun(role, 0, e);
    }
  }

  // ---- what an allocation of a given size asks for

  /** Requests and failures are counted in 32 bits. */
  function Counted(n: nat): nat { (n + 1) % 0x1_0000_0000 }

  /** The size class of a small request: the least shift from 3 on whose blocks are big enough. */
  predicate IsClass(size: nat, shift: nat) {
    3 <= shift && size <= Pow2(shift) && (shift > 3 ==> Pow2(shift - 1) < size)
  }

  function PagesFor(pageShift: nat, size: nat): nat {
    size / PageSize(pageShift) + if size % PageSize(pageShift) != 0 then 1 else 0
  }

  ghost predicate HasFreeBlock(pageShift: nat, role: seq<Role>, shift: nat)
    requires ShiftOk(pageShift, shift)
  {
    exists i :: 0 <= i < |role| && role[i].Chunked? && role[i].shift == shift && role[i].busy != AllBlocks(pageShift, shift)
  }

  /** As many pages as a request needs, and not one more. */
  predicate JustFits(pageShift: nat, pages: nat, size: nat) {
    size <= pages * PageSize(pageShift) < size + PageSize(pageShift)
  }

  /** Nothing in the pool can serve a request of that size: beyond half a page it needs whole pages
      next to each other, otherwise a block of its class or a page to cut. */
  ghost predicate Exhausted(pageShift: nat, role: seq<Role>, size: nat)
    requires PageShiftOk(pageShift)
  {
    if size > PageSize(pageShift) / 2 then !exists pages: nat :: JustFits(pageShift, pages, size) && HasWindow(role, pages)
    else
      && FreeSet(role) == {}
      && forall shift :: ShiftOk(pageShift, shift) && IsClass(size, shift) ==> !HasFreeBlock(pageShift, role, shift)
  }

  lemma ClassUnique(size: nat, a: nat, b: nat)
    requires IsClass(size, a) && IsClass(size, b)
    ensures a == b
  {
    if a < b {
      Pow2Monotone(a, b - 1);
    } else if b < a {
      Pow2Monotone(b, a - 1);
    }
  }

  lemma OnlyClass(size: nat, shift: nat)
    requires IsClass(size, shift)
    ensures forall t :: IsClass(size, t) ==> t == shift
    ensures size <= Pow2(shift)
  {
    forall t | IsClass(size, t) ensures t == shift {
      ClassUnique(size, t, shift);
    }
  }

  /** The blocks of a class are the least power of two from 8 on that the request fits. */
  lemma ClassSize(size: nat, shift: nat)
    requires IsClass(size, shift)
    ensures size <= Pow2(shift) && (Pow2(shift) == 8 || (Pow2(shift) > 8 && Pow2(shift) < 2 * size))
  {
    SmallPower();
    if shift > 3 {
      Pow2Monotone(3, shift - 1);
      assert Pow2(shift) == 2 * Pow2(shift - 1);
    }
  }

  /** A small request's class exists. */
  lemma ClassFits(pageShift: nat, size: nat, shift: nat)
    requires PageShiftOk(pageShift) && size <= PageSize(pageShift) / 2 && IsClass(size, shift)
    ensures ShiftOk(pageShift, shift)
  {
    if shift > 3 && pageShift <= shift {
      Pow2Monotone(pageShift - 1, shift - 1);
    }
  }

  /** Dividing by the page size and adding a page for a remainder is the one number that just fits. */
  lemma PagesForFit(pageShift: nat, size: nat)
    requires size > 0
    ensures 1 <= PagesFor(pageShift, size)
    ensures forall pages: nat :: JustFits(pageShift, pages, size) <==> pages == PagesFor(pageShift, size)
  {
    var unit := PageSize(pageShift);
    RoundUp(size, unit);
    forall pages: nat ensures JustFits(pageShift, pages, size) <==> pages == PagesFor(pageShift, size) {
      if JustFits(pageShift, pages, size) {
        LeastMultiple(pages, PagesFor(pageShift, size), unit, size);
      }
    }
  }

  lemma OnePageWindow(role: seq<Role>)
    ensures HasWindow(role, 1) <==> FreeSet(role) != {}
  {
    if i: nat :| i in FreeSet(role) {
      assert IsWindow(role, i, 1);
    }
    if HasWindow(role, 1) {
      var a: nat :| IsWindow(role, a, 1);
      assert a in FreeSet(role);
    }
  }

  /** Every live piece starts at a multiple of its size. */
  lemma PieceAligned(pageShift: nat, i: nat, shift: nat, c: nat)
    requires ShiftOk(pageShift, shift)
    ensures Start(pageShift, Piece(i, shift, c)) == (i * Capacity(pageShift, shift) + c) * Pow2(shift)
  {
    Pow2Add(pageShift - shift, shift);
    Distribute(i, Capacity(pageShift, shift), c, Pow2(shift));
  }

  lemma Distribute(i: nat, cap: nat, c: nat, unit: nat)
    ensures (i * cap + c) * unit == i * (cap * unit) + c * unit
  {
  }

  function PageOffset(pageShift: nat, i: nat): nat { i * PageSize(pageShift) }

  lemma SmallPower()
    ensures Pow2(3) == 8
  {
  }

  lemma AboveEight(shift: nat, size: nat)
    requires 1 <= shift && Pow2(shift - 1) < size <= Pow2(shift) && size > 8
    ensures IsClass(size, shift)
  {
    if shift <= 3 {
      Pow2Monotone(shift, 3);
    }
  }

  /** The address of a live block determines the block. */
  lemma StartDetermines(pageShift: nat, role: seq<Role>, b: Block)
    requires PageShiftOk(pageShift) && RolesFit(pageShift, role) && Live(pageShift, role, b)
    ensures Start(pageShift, b) / PageSize(pageShift) == FirstPage(b)
    ensures b.Pages? ==> Start(pageShift, b) % PageSize(pageShift) == 0
    ensures b.Piece? ==>
      var r := Start(pageShift, b) % PageSize(pageShift);
      r % Pow2(b.shift) == 0 && r / Pow2(b.shift) == b.index
  {
    hide Pow2, Range, RolesOk;
    if b.Piece? {
      assert BusyOk(pageShift, role, b.page);
      PieceInPage(pageShift, b.shift, b.index);
      DivModUnique(Start(pageShift, b), PageSize(pageShift), b.page, b.index * Pow2(b.shift));
      DivModUnique(b.index * Pow2(b.shift), Pow2(b.shift), b.index, 0);
    } else {
      DivModUnique(Start(pageShift, b), PageSize(pageShift), b.first, 0);
    }
  }
}
