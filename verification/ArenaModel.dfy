/** The pages and blocks of a memory pool, and what its space counters count. */
module ArenaModel {
  import opened Options

  /** Bytes taken by the record at the start of a page, and by a level record. */
  const HEADER := 40
  const LEVEL := 56
  const WORD := 8

  /** A page with its own counters; cur is where its free space begins. */
  datatype Page = Page(id: nat, used: nat, wasted: nat, reserved: nat, cur: nat)

  /** A block from the fallback allocator. */
  datatype Block = Block(id: nat, size: nat)

  datatype Space = Space(wasted: int, free: int, used: int, reserved: int, allocd: int)

  datatype Place = InPage(page: nat, offset: nat) | InBlock(block: nat)

  /** An allocation, and whether it had to be aligned. */
  datatype Alloc = Alloc(place: Place, size: nat, aligned: bool)

  /** Pages and blocks from the oldest to the newest, and the allocations in them. */
  datatype Core = Core(pages: seq<Page>, blocks: seq<Block>, live: seq<Alloc>)

  function Aligned(n: nat): (r: nat)
    ensures n <= r < n + WORD && r % WORD == 0
  {
    (n + (WORD - 1)) / WORD * WORD
  }

  function SumUsed(pages: seq<Page>): nat {
    if pages == [] then 0 else SumUsed(pages[..|pages| - 1]) + pages[|pages| - 1].used
  }

  function SumReserved(pages: seq<Page>): nat {
    if pages == [] then 0 else SumReserved(pages[..|pages| - 1]) + pages[|pages| - 1].reserved
  }

  function SumWasted(pages: seq<Page>): nat {
    if pages == [] then 0 else SumWasted(pages[..|pages| - 1]) + pages[|pages| - 1].wasted
  }

  /** What is left at the end of each page. */
  function SumLeft(size: nat, pages: seq<Page>): int {
    if pages == [] then 0 else SumLeft(size, pages[..|pages| - 1]) + size - pages[|pages| - 1].cur
  }

  function SumBlocks(blocks: seq<Block>): nat {
    if blocks == [] then 0 else SumBlocks(blocks[..|blocks| - 1]) + blocks[|blocks| - 1].size
  }

  function Last(pages: seq<Page>): Page
    requires pages != []
  {
    pages[|pages| - 1]
  }

  /** The counters as the pages say: only the last page has free space, what is left at the
      end of the others is wasted. */
  function SpaceOf(size: nat, pages: seq<Page>, blocks: seq<Block>): Space {
    if pages == [] then Space(0, 0, 0, 0, SumBlocks(blocks))
    else
      var free := size - Last(pages).cur;
      Space(SumWasted(pages) + SumLeft(size, pages) - free, free, SumUsed(pages), SumReserved(pages), SumBlocks(blocks))
  }

  predicate PageOk(size: nat, p: Page) {
    p.reserved == HEADER && p.used + p.wasted + p.reserved == p.cur <= size
  }

  lemma {:induction false} AllSpace(size: nat, pages: seq<Page>)
    requires forall i :: 0 <= i < |pages| ==> PageOk(size, pages[i])
    ensures SumUsed(pages) + SumWasted(pages) + SumReserved(pages) + SumLeft(size, pages) == size * |pages|
    decreases |pages|
  {
    if pages != [] {
      var n := |pages|;
      AllSpace(size, pages[..n - 1]);
      assert size * n == size * (n - 1) + size;
      assert PageOk(size, pages[n - 1]);
    }
  }

  /** An allocation lies in the used part of a page, past its header, or is a block. */
  ghost predicate AllocOk(pages: seq<Page>, blocks: seq<Block>, a: Alloc) {
    match a.place
    case InPage(id, offset) =>
      && (a.aligned ==> offset % WORD == 0)
      && exists i :: 0 <= i < |pages| && pages[i].id == id && HEADER <= offset && offset + a.size <= pages[i].cur
    case InBlock(id) =>
      exists i :: 0 <= i < |blocks| && blocks[i] == Block(id, a.size)
  }

  predicate Disjoint(a: Alloc, b: Alloc) {
    match (a.place, b.place)
    case (InPage(p, i), InPage(q, j)) => p != q || i + a.size <= j || j + b.size <= i
    case (InBlock(p), InBlock(q)) => p != q
    case _ => true
  }

  ghost predicate CoreOk(size: nat, nextId: nat, c: Core) {
    && (forall i :: 0 <= i < |c.pages| ==> PageOk(size, c.pages[i]) && c.pages[i].id < nextId)
    && (forall i, j :: 0 <= i < j < |c.pages| ==> c.pages[i].id != c.pages[j].id)
    && (forall i :: 0 <= i < |c.blocks| ==> c.blocks[i].id < nextId)
    && (forall i, j :: 0 <= i < j < |c.blocks| ==> c.blocks[i].id != c.blocks[j].id)
    && (forall i :: 0 <= i < |c.live| ==> AllocOk(c.pages, c.blocks, c.live[i]))
    && (forall i, j :: 0 <= i < j < |c.live| ==> Disjoint(c.live[i], c.live[j]))
  }

  /** The pool has only grown since m: its last page may have been filled further, everything
      before it is as it was, and nothing allocated then is gone. */
  ghost predicate Grown(m: Core, c: Core) {
    && |m.pages| <= |c.pages|
    && (forall i :: 0 <= i < |m.pages| ==> GrownPage(m.pages[i], c.pages[i]) && (i < |m.pages| - 1 ==> c.pages[i] == m.pages[i]))
    && m.blocks <= c.blocks && m.live <= c.live
  }

  predicate GrownPage(p: Page, q: Page) {
    q.id == p.id && q.reserved == p.reserved && p.used <= q.used && p.wasted <= q.wasted && p.cur <= q.cur
  }

  lemma GrownTrans(a: Core, b: Core, c: Core)
    requires Grown(a, b) && Grown(b, c)
    ensures Grown(a, c)
  {
    forall i | 0 <= i < |a.pages| ensures GrownPage(a.pages[i], c.pages[i]) && (i < |a.pages| - 1 ==> c.pages[i] == a.pages[i]) {
      assert GrownPage(a.pages[i], b.pages[i]) && GrownPage(b.pages[i], c.pages[i]);
    }
  }

  /** sz bytes taken from the last page, after padding. */
  function TakenIn(c: Core, sz: nat, aligned: bool): Core
    requires c.pages != []
  {
    var p := Last(c.pages);
    var at := if aligned then Aligned(p.cur) else p.cur;
    c.(pages := c.pages[|c.pages| - 1 := p.(used := p.used + sz, wasted := p.wasted + (at - p.cur), cur := at + sz)],
       live := c.live + [Alloc(InPage(p.id, at), sz, aligned)])
  }

  function PageAdded(c: Core, id: nat): Core {
    c.(pages := c.pages + [Page(id, 0, 0, HEADER, HEADER)])
  }

  function BlockAdded(c: Core, id: nat, sz: nat, aligned: bool): Core {
    c.(blocks := c.blocks + [Block(id, sz)], live := c.live + [Alloc(InBlock(id), sz, aligned)])
  }

  /** What an allocation does: from the last page if it fits there, from a new page if it fits
      there and there is memory for one, from the fallback allocator, or not at all. */
  datatype Outcome = Current | NewPage | Fallback | Failure

  predicate FitsCurrent(size: nat, c: Core, sz: nat, aligned: bool) {
    c.pages != [] &&
    var cur := Last(c.pages).cur;
    (if aligned then Aligned(cur) else cur) + sz <= size
  }

  /** There is a place for a request behind what is taken of the last page. */
  ghost predicate HasPlace(size: nat, c: Core, sz: nat, aligned: bool) {
    c.pages != [] && exists at: nat :: PlaceAt(size, Last(c.pages).cur, at, sz, aligned)
  }

  predicate PlaceAt(size: nat, cur: nat, at: nat, sz: nat, aligned: bool) {
    cur <= at && at + sz <= size && (aligned ==> at % WORD == 0)
  }

  lemma FitsIff(size: nat, c: Core, sz: nat, aligned: bool)
    ensures FitsCurrent(size, c, sz, aligned) <==> HasPlace(size, c, sz, aligned)
  {
    if c.pages != [] {
      var cur := Last(c.pages).cur;
      var first := if aligned then Aligned(cur) else cur;
      assert first + sz <= size ==> PlaceAt(size, cur, first, sz, aligned);
    }
  }

  /** The counters after a piece of a page is taken: less than a word is wasted on alignment. */
  predicate CountsPiece(s: Space, s': Space, sz: nat, align: bool) {
    s'.used == s.used + sz && s'.allocd == s.allocd && s.wasted <= s'.wasted < s.wasted + (if align then WORD else 1)
  }

  /** How a request is served: behind the last one if there is a place; else at the front of a new
      page; else in a block; else not at all. */
  ghost predicate Served(size: nat, c: Core, s: Space, c': Core, s': Space, sz: nat, align: bool,
                         pageMemory: bool, blockMemory: bool, r: Option<Place>) {
    && (r.Some? ==> c'.live == c.live + [Alloc(r.value, sz, align)])
    && if HasPlace(size, c, sz, align) then
         |c'.pages| == |c.pages| && c'.blocks == c.blocks && r.Some? && CountsPiece(s, s', sz, align)
       else if HEADER + sz <= size && pageMemory then
         |c'.pages| == |c.pages| + 1 && c'.blocks == c.blocks && r.Some? && s'.used == s.used + sz && s'.allocd == s.allocd
       else if blockMemory then
         c'.pages == c.pages && |c'.blocks| == |c.blocks| + 1 && r.Some? && s' == s.(allocd := s.allocd + sz)
       else
         c' == c && s' == s && r.None?
  }

  function Choice(size: nat, c: Core, sz: nat, aligned: bool, pageMemory: bool, blockMemory: bool): Outcome {
    if FitsCurrent(size, c, sz, aligned) then Current
    else if HEADER + sz <= size && pageMemory then NewPage
    else if blockMemory then Fallback
    else Failure
  }

  function Allocated(size: nat, c: Core, id: nat, sz: nat, aligned: bool, o: Outcome): Core
    requires o.Current? ==> c.pages != []
  {
    match o
    case Current => TakenIn(c, sz, aligned)
    case NewPage => TakenIn(PageAdded(c, id), sz, aligned)
    case Fallback => BlockAdded(c, id, sz, aligned)
    case Failure => c
  }

  /** The counters after an allocation. */
  predicate Counts(s: Space, s': Space, sz: nat, align: bool, o: Outcome) {
    match o
    case Current => CountsPiece(s, s', sz, align)
    case NewPage => s'.used == s.used + sz && s'.allocd == s.allocd
    case Fallback => s' == s.(allocd := s.allocd + sz)
    case Failure => s' == s
  }

  lemma ServedSo(size: nat, c: Core, s: Space, id: nat, c': Core, s': Space, sz: nat, align: bool,
                 pageMemory: bool, blockMemory: bool, r: Option<Place>)
    requires var o := Choice(size, c, sz, align, pageMemory, blockMemory);
             && c' == Allocated(size, c, id, sz, align, o) && Counts(s, s', sz, align, o)
             && r == if o.Failure? then None else Some(c'.live[|c'.live| - 1].place)
    ensures Served(size, c, s, c', s', sz, align, pageMemory, blockMemory, r)
  {
    FitsIff(size, c, sz, align);
    hide HasPlace, Aligned;
  }

  lemma TakenOk(size: nat, nextId: nat, c: Core, sz: nat, aligned: bool)
    requires CoreOk(size, nextId, c) && FitsCurrent(size, c, sz, aligned)
    ensures CoreOk(size, nextId, TakenIn(c, sz, aligned)) && Grown(c, TakenIn(c, sz, aligned))
  {
    var c' := TakenIn(c, sz, aligned);
    var n := |c.pages| - 1;
    var a := c'.live[|c.live|];
    forall i | 0 <= i < |c.live| ensures AllocOk(c'.pages, c'.blocks, c.live[i]) && Disjoint(c.live[i], a) {
      StillOk(c.pages, c'.pages, c.blocks, c.blocks, c.live[i]);
      if c.live[i].place.InPage? && c.live[i].place.page == c.pages[n].id {
        var k :| 0 <= k < |c.pages| && c.pages[k].id == c.live[i].place.page && c.live[i].place.offset + c.live[i].size <= c.pages[k].cur;
        assert k == n;
      }
    }
    assert c'.pages[n].id == a.place.page && a.place.offset + a.size <= c'.pages[n].cur && PageOk(size, c.pages[n]);
    assert AllocOk(c'.pages, c'.blocks, a);
  }

  lemma StillOk(pages: seq<Page>, pages': seq<Page>, blocks: seq<Block>, blocks': seq<Block>, a: Alloc)
    requires AllocOk(pages, blocks, a) && |pages| <= |pages'| && blocks <= blocks'
    requires forall i :: 0 <= i < |pages| ==> pages'[i].id == pages[i].id && pages[i].cur <= pages'[i].cur
    ensures AllocOk(pages', blocks', a)
  {
    match a.place {
      case InPage(id, offset) =>
        var i :| 0 <= i < |pages| && pages[i].id == id && HEADER <= offset && offset + a.size <= pages[i].cur;
        assert pages'[i].id == id;
      case InBlock(id) =>
        var i :| 0 <= i < |blocks| && blocks[i] == Block(id, a.size);
        assert blocks'[i] == Block(id, a.size);
    }
  }

  lemma PageAddedOk(size: nat, nextId: nat, c: Core)
    requires CoreOk(size, nextId, c) && HEADER <= size
    ensures CoreOk(size, nextId + 1, PageAdded(c, nextId)) && Grown(c, PageAdded(c, nextId))
  {
    var c' := PageAdded(c, nextId);
    forall i | 0 <= i < |c.live| ensures AllocOk(c'.pages, c'.blocks, c.live[i]) {
      StillOk(c.pages, c'.pages, c.blocks, c.blocks, c.live[i]);
    }
  }

  lemma BlockAddedOk(size: nat, nextId: nat, c: Core, sz: nat, aligned: bool)
    requires CoreOk(size, nextId, c)
    ensures CoreOk(size, nextId + 1, BlockAdded(c, nextId, sz, aligned)) && Grown(c, BlockAdded(c, nextId, sz, aligned))
  {
    var c' := BlockAdded(c, nextId, sz, aligned);
    var n := |c.blocks|;
    var a := c'.live[|c.live|];
    forall i | 0 <= i < |c.live| ensures AllocOk(c'.pages, c'.blocks, c.live[i]) && Disjoint(c.live[i], a) {
      StillOk(c.pages, c'.pages, c.blocks, c'.blocks, c.live[i]);
      if c.live[i].place.InBlock? {
        var k :| 0 <= k < |c.blocks| && c.blocks[k] == Block(c.live[i].place.block, c.live[i].size);
      }
    }
    assert c'.blocks[n] == Block(nextId, sz);
  }

  /** Whatever the choice: allocations stay disjoint and in place, aligned ones aligned. */
  lemma AllocatedOk(size: nat, nextId: nat, c: Core, sz: nat, aligned: bool, o: Outcome)
    requires CoreOk(size, nextId, c)
    requires o.Current? ==> FitsCurrent(size, c, sz, aligned)
    requires o.NewPage? ==> HEADER + sz <= size
    ensures CoreOk(size, nextId + 1, Allocated(size, c, nextId, sz, aligned, o)) && Grown(c, Allocated(size, c, nextId, sz, aligned, o))
  {
    match o {
      case Current => TakenOk(size, nextId, c, sz, aligned); MoreFresh(size, nextId, TakenIn(c, sz, aligned));
      case NewPage =>
        PageAddedOk(size, nextId, c);
        FreshFits(size, c, nextId, sz, aligned);
        TakenOk(size, nextId + 1, PageAdded(c, nextId), sz, aligned);
        GrownTrans(c, PageAdded(c, nextId), TakenIn(PageAdded(c, nextId), sz, aligned));
      case Fallback => BlockAddedOk(size, nextId, c, sz, aligned);
      case Failure => MoreFresh(size, nextId, c);
    }
  }

  /** A request that fits a page fits a new one: the assertion after adding it holds. */
  lemma FreshFits(size: nat, c: Core, id: nat, sz: nat, aligned: bool)
    requires HEADER + sz <= size
    ensures FitsCurrent(size, PageAdded(c, id), sz, aligned)
  {
  }

  lemma MoreFresh(size: nat, nextId: nat, c: Core)
    requires CoreOk(size, nextId, c)
    ensures CoreOk(size, nextId + 1, c)
  {
  }

  /** Changing the last page changes the counters by the difference. */
  lemma SpaceReplaced(size: nat, pages: seq<Page>, blocks: seq<Block>, q: Page)
    requires pages != []
    ensures var p, s := Last(pages), SpaceOf(size, pages, blocks);
            SpaceOf(size, pages[|pages| - 1 := q], blocks)
            == Space(s.wasted + q.wasted - p.wasted, s.free - (q.cur - p.cur), s.used + q.used - p.used,
                     s.reserved + q.reserved - p.reserved, s.allocd)
  {
    var pages' := pages[|pages| - 1 := q];
    assert pages'[..|pages'| - 1] == pages[..|pages| - 1];
  }

  /** Going back to the last page of m: what is under it is m's. */
  lemma BackTo(m: Core, c: Core, pages: seq<Page>)
    requires Grown(m, c) && m.pages != [] && pages == c.pages[..|m.pages|]
    ensures pages[|pages| - 1 := Last(m.pages)] == m.pages
    ensures GrownPage(Last(m.pages), Last(pages))
  {
    forall i | 0 <= i < |m.pages| - 1 ensures pages[i] == m.pages[i] {
      assert GrownPage(m.pages[i], c.pages[i]);
    }
    assert GrownPage(m.pages[|m.pages| - 1], c.pages[|m.pages| - 1]);
  }

  lemma SamePage(size: nat, nextId: nat, m: Core, c: Core, n: nat)
    requires CoreOk(size, nextId, c) && Grown(m, c) && m.pages != [] && |m.pages| <= n <= |c.pages|
    ensures c.pages[n - 1].id == Last(m.pages).id <==> n == |m.pages|
  {
    assert GrownPage(m.pages[|m.pages| - 1], c.pages[|m.pages| - 1]);
  }

  lemma SameBlock(size: nat, nextId: nat, m: Core, c: Core, n: nat)
    requires CoreOk(size, nextId, c) && Grown(m, c) && m.blocks != [] && |m.blocks| <= n <= |c.blocks|
    ensures c.blocks[n - 1].id == m.blocks[|m.blocks| - 1].id <==> n == |m.blocks|
  {
    assert c.blocks[|m.blocks| - 1] == m.blocks[|m.blocks| - 1];
  }

  lemma FirstPage(size: nat)
    requires HEADER <= size
    ensures var c := Core([Page(0, 0, 0, HEADER, HEADER)], [], []);
            SpaceOf(size, c.pages, []) == Space(0, size - HEADER, 0, HEADER, 0) && CoreOk(size, 1, c)
  {
    var pages := [Page(0, 0, 0, HEADER, HEADER)];
    assert pages[..|pages| - 1] == [];
    assert SumUsed([]) == SumWasted([]) == SumReserved([]) == SumLeft(size, []) == 0;
  }

  /** Without the last page, what is left on the one before it is free again. */
  lemma SpacePopped(size: nat, pages: seq<Page>, blocks: seq<Block>)
    requires pages != []
    ensures var p, s, rest := Last(pages), SpaceOf(size, pages, blocks), pages[..|pages| - 1];
            var left := if rest == [] then 0 else size - Last(rest).cur;
            SpaceOf(size, rest, blocks)
            == Space(s.wasted - p.wasted - left, s.free - (size - p.cur) + left, s.used - p.used, s.reserved - p.reserved, s.allocd)
  {
    var rest, p := pages[..|pages| - 1], Last(pages);
    assert SumUsed(pages) == SumUsed(rest) + p.used && SumWasted(pages) == SumWasted(rest) + p.wasted;
    assert SumReserved(pages) == SumReserved(rest) + p.reserved && SumLeft(size, pages) == SumLeft(size, rest) + size - p.cur;
    if rest == [] {
      assert SumUsed(rest) == SumWasted(rest) == SumReserved(rest) == SumLeft(size, rest) == 0;
    }
  }

  /** Every byte of every page is used, free, wasted or reserved. */
  lemma SpaceAddsUp(size: nat, nextId: nat, c: Core)
    requires CoreOk(size, nextId, c)
    ensures var s := SpaceOf(size, c.pages, c.blocks);
            s.used + s.free + s.wasted + s.reserved == (if c.pages == [] then 0 else size * |c.pages|)
  {
    AllSpace(size, c.pages);
  }

  lemma SpaceOfBlock(size: nat, pages: seq<Page>, blocks: seq<Block>, b: Block)
    ensures var s := SpaceOf(size, pages, blocks);
            SpaceOf(size, pages, blocks + [b]) == s.(allocd := s.allocd + b.size)
  {
    assert (blocks + [b])[..|blocks|] == blocks;
  }
}
