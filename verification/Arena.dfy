/** The memory pool: pages filled from the front, a fallback list, and levels to go back to. */
module Arena {
  import opened Options
  import opened ArenaModel

  /** What a level remembers: the last page and its counters, and the last block. */
  datatype Level = Level(page: Option<Page>, cur: nat, block: Option<nat>)

  const MAX_LEVELS := 8

  function LevelFor(m: Core, cur: nat): Level {
    Level(if m.pages == [] then None else Some(Last(m.pages)), cur,
          if m.blocks == [] then None else Some(m.blocks[|m.blocks| - 1].id))
  }

  /** Going back to m: the pages are as they were; the fallback list only if it had something
      in it then, for otherwise nothing of it is given back. */
  function Drained(c: Core, m: Core): Core {
    Core(m.pages, if m.blocks == [] then c.blocks else m.blocks, m.live)
  }

  lemma DrainedOk(size: nat, nextId: nat, c: Core, m: Core)
    requires CoreOk(size, nextId, c) && CoreOk(size, nextId, m) && Grown(m, c)
    ensures CoreOk(size, nextId, Drained(c, m)) && Grown(m, Drained(c, m))
  {
    var d := Drained(c, m);
    forall i | 0 <= i < |d.live| ensures AllocOk(d.pages, d.blocks, d.live[i]) {
      StillOk(m.pages, d.pages, m.blocks, d.blocks, m.live[i]);
    }
  }

  /** A level below survives. */
  lemma DrainedBelow(c: Core, m: Core, below: Core)
    requires Grown(m, c) && Grown(below, m) && Grown(below, c)
    ensures Grown(below, Drained(c, m))
  {
  }

  /** Level k, with the pool as it was when it was marked. */
  ghost predicate LevelOk(size: nat, nextId: nat, c: Core, level: Level, m: Core) {
    && CoreOk(size, nextId, m) && Grown(m, c) && (m.pages == [] <==> size == 0)
    && level == LevelFor(m, if m.pages == [] then 0 else Last(m.pages).cur)
  }

  ghost predicate LevelsOk(size: nat, nextId: nat, c: Core, levels: seq<Level>, marks: seq<Core>, usable: set<nat>) {
    && |levels| == |marks| <= MAX_LEVELS
    && (forall k :: k in usable ==> k < |levels| && LevelOk(size, nextId, c, levels[k], marks[k]))
    && (forall j, k :: j in usable && k in usable && j < k ==> Grown(marks[j], marks[k]))
  }

  /** What only grows keeps its levels. */
  lemma LevelsGrow(size: nat, nextId: nat, nextId': nat, c: Core, c': Core, levels: seq<Level>, marks: seq<Core>, usable: set<nat>)
    requires LevelsOk(size, nextId, c, levels, marks, usable) && Grown(c, c') && nextId <= nextId'
    ensures LevelsOk(size, nextId', c', levels, marks, usable)
  {
    forall k | k in usable ensures LevelOk(size, nextId', c', levels[k], marks[k]) {
      GrownTrans(marks[k], c, c');
    }
  }

  function Below(usable: set<nat>, k: nat): set<nat> { set j | j in usable && j < k }

  /** The levels up to one that is gone back to. */
  lemma LevelsDrain(size: nat, nextId: nat, c: Core, levels: seq<Level>, marks: seq<Core>, usable: set<nat>, k: nat)
    requires LevelsOk(size, nextId, c, levels, marks, usable) && 0 < k && k - 1 in usable && CoreOk(size, nextId, c)
    ensures k <= |levels| == |marks| && LevelsOk(size, nextId, Drained(c, marks[k - 1]), levels, marks, Below(usable, k))
    ensures LevelOk(size, nextId, c, levels[k - 1], marks[k - 1]) && Grown(marks[k - 1], c)
  {
    var m := marks[k - 1];
    DrainedOk(size, nextId, c, m);
    hide CoreOk;
    forall j | j in usable && j < k ensures LevelOk(size, nextId, Drained(c, m), levels[j], marks[j]) {
      if j < k - 1 {
        DrainedBelow(c, m, marks[j]);
      }
    }
  }

  class Pool {
    var size: nat
    var pages: seq<Page>
    var cur: nat
    var blocks: seq<Block>
    var space: Space
    var levels: seq<Level>
    var nextId: nat
    ghost var live: seq<Alloc>
    ghost var marks: seq<Core>
    ghost var usable: set<nat>

    ghost function Now(): Core
      reads this
    {
      Core(pages, blocks, live)
    }

    /** The pool without its levels. */
    ghost predicate PagesOk()
      reads this
    {
      && CoreOk(size, nextId, Now())
      && (pages == [] <==> size == 0)
      && (size > 0 ==> HEADER <= size)
      && cur == (if pages == [] then 0 else Last(pages).cur)
      && space == SpaceOf(size, pages, blocks)
    }

    ghost predicate Valid()
      reads this
    {
      PagesOk() && LevelsOk(size, nextId, Now(), levels, marks, usable)
    }

    constructor (pagesize: nat)
      requires HEADER <= pagesize
      ensures Valid() && size == pagesize && levels == [] && usable == {} && marks == [] && cur == HEADER
      ensures Now() == Core([Page(0, 0, 0, HEADER, HEADER)], [], [])
    {
      size, pages, cur := pagesize, [Page(0, 0, 0, HEADER, HEADER)], HEADER;
      blocks, levels, nextId, live, marks, usable := [], [], 1, [], [], {};
      space := Space(0, pagesize - HEADER, 0, HEADER, 0);
      new;
      FirstPage(size);
    }

    /** A new page; what was left on the last one is wasted from now on. */
    method AddPage()
      requires PagesOk() && size > 0
      modifies this`pages, this`cur, this`space, this`nextId
      ensures PagesOk() && Now() == PageAdded(old(Now()), old(nextId)) && nextId == old(nextId) + 1
      ensures space.used == old(space.used) && space.allocd == old(space.allocd)
    {
      PageAddedOk(size, nextId, Now());
      if pages != [] {
        var wasted := size - cur;
        space := space.(free := space.free - wasted, wasted := space.wasted + wasted);
      }
      pages := pages + [Page(nextId, 0, 0, HEADER, HEADER)];
      cur := HEADER;
      nextId := nextId + 1;
      space := space.(free := space.free + size - HEADER, reserved := space.reserved + HEADER);
      assert pages[..|pages| - 1] == old(pages);
    }

    method RemoveLastPage()
      requires pages != [] && space == SpaceOf(size, pages, blocks)
      modifies this`pages, this`space
      ensures pages == old(pages[..|pages| - 1]) && space == SpaceOf(size, pages, blocks)
    {
      SpacePopped(size, pages, blocks);
      hide SpaceOf;
      var page := pages[|pages| - 1];
      pages := pages[..|pages| - 1];
      space := space.(wasted := space.wasted - page.wasted, free := space.free - (size - page.cur),
                      used := space.used - page.used, reserved := space.reserved - page.reserved);
      if pages != [] {
        var left := size - pages[|pages| - 1].cur;
        space := space.(free := space.free + left, wasted := space.wasted - left);
      }
    }

    method PlainOldMalloc(sz: nat, ghost aligned: bool, memory: bool) returns (r: Option<Place>)
      requires PagesOk()
      modifies this`blocks, this`space, this`nextId, this`live
      ensures PagesOk() && r.Some? == memory && nextId == old(nextId) + (if memory then 1 else 0)
      ensures Now() == if memory then BlockAdded(old(Now()), old(nextId), sz, aligned) else old(Now())
      ensures memory ==> r == Some(live[|live| - 1].place)
      ensures space == if memory then old(space).(allocd := old(space).allocd + sz) else old(space)
    {
      if !memory {
        return None;
      }
      BlockAddedOk(size, nextId, Now(), sz, aligned);
      SpaceOfBlock(size, pages, blocks, Block(nextId, sz));
      hide CoreOk, SpaceOf, Grown;
      r := Some(InBlock(nextId));
      blocks := blocks + [Block(nextId, sz)];
      live := live + [Alloc(InBlock(nextId), sz, aligned)];
      nextId := nextId + 1;
      space := space.(allocd := space.allocd + sz);
    }

    method PlainOldFreeLast()
      requires blocks != [] && space == SpaceOf(size, pages, blocks)
      modifies this`blocks, this`space
      ensures blocks == old(blocks[..|blocks| - 1]) && space == SpaceOf(size, pages, blocks)
    {
      space := space.(allocd := space.allocd - blocks[|blocks| - 1].size);
      blocks := blocks[..|blocks| - 1];
    }

    /** Pads, takes and counts, if there is room. */
    method PallocInCurrentPage(sz: nat, align: bool) returns (r: Option<Place>)
      requires PagesOk() && (pages != [] || sz > 0)
      modifies this`pages, this`cur, this`space, this`live
      ensures PagesOk() && r.Some? == FitsCurrent(size, old(Now()), sz, align)
      ensures Now() == if r.Some? then TakenIn(old(Now()), sz, align) else old(Now())
      ensures r.Some? ==> r == Some(live[|live| - 1].place)
      ensures if r.Some? then CountsPiece(old(space), space, sz, align) else space == old(space)
    {
      hide CoreOk, SpaceOf, Grown, Aligned, SumBlocks;
      var at := if align then Aligned(cur) else cur;
      if size - cur < (at - cur) + sz {
        return None;
      }
      r := Some(InPage(pages[|pages| - 1].id, at));
      Take(at, sz, align);
    }

    method Take(at: nat, sz: nat, align: bool)
      requires PagesOk() && FitsCurrent(size, Now(), sz, align) && at == if align then Aligned(cur) else cur
      modifies this`pages, this`cur, this`space, this`live
      ensures PagesOk() && Now() == TakenIn(old(Now()), sz, align)
      ensures CountsPiece(old(space), space, sz, align)
    {
      hide CoreOk, SpaceOf, Grown, Aligned;
      TakenOk(size, nextId, Now(), sz, align);
      var page, padding := pages[|pages| - 1], at - cur;
      var taken := page.(wasted := page.wasted + padding, used := page.used + sz, cur := at + sz);
      SpaceReplaced(size, pages, blocks, taken);
      pages := pages[|pages| - 1 := taken];
      live := live + [Alloc(InPage(page.id, at), sz, align)];
      cur := at + sz;
      space := space.(wasted := space.wasted + padding, used := space.used + sz, free := space.free - (sz + padding));
    }

    /** The current page, else a new one, else the fallback. */
    method Palloc(sz: nat, align: bool, pageMemory: bool, blockMemory: bool) returns (r: Option<Place>)
      requires Valid() && (pages != [] || sz > 0)
      modifies this`pages, this`cur, this`blocks, this`space, this`nextId, this`live
      ensures Valid() && nextId >= old(nextId)
      ensures var o := Choice(size, old(Now()), sz, align, pageMemory, blockMemory);
              && Now() == Allocated(size, old(Now()), old(nextId), sz, align, o)
              && r == if o.Failure? then None else Some(live[|live| - 1].place)
      ensures Served(size, old(Now()), old(space), Now(), space, sz, align, pageMemory, blockMemory, r)
    {
      hide CoreOk, SpaceOf, Grown, LevelsOk, Served, Aligned, SumBlocks;
      ghost var c := Now();
      ghost var o := Choice(size, c, sz, align, pageMemory, blockMemory);
      AllocatedOk(size, nextId, c, sz, align, o);
      r := PallocInCurrentPage(sz, align);
      if r.None? && HEADER + sz <= size && pageMemory {
        AddPage();
        FreshFits(size, c, old(nextId), sz, align);
        r := PallocInCurrentPage(sz, align);
      } else if r.None? {
        r := PlainOldMalloc(sz, align, blockMemory);
      }
      ServedSo(size, c, old(space), old(nextId), Now(), space, sz, align, pageMemory, blockMemory, r);
      LevelsGrow(size, old(nextId), nextId, c, Now(), levels, marks, usable);
    }

    /** Remembers where the pool is, in a record that is itself in the pool. */
    method MarkLevel(pageMemory: bool, blockMemory: bool) returns (level: nat)
      requires Valid() && |levels| < MAX_LEVELS
      modifies this
      ensures Valid() && size == old(size)
      ensures var o := Choice(size, old(Now()), LEVEL, true, pageMemory, blockMemory);
              && Now() == Allocated(size, old(Now()), old(nextId), LEVEL, true, o)
              && (if o.Failure? then level == 0 && marks == old(marks) && usable == old(usable)
                  else level == |levels| == |old(levels)| + 1 && marks == old(marks) + [Now()] && usable == old(usable) + {level - 1})
    {
      hide CoreOk, SpaceOf;
      var r := Palloc(LEVEL, true, pageMemory, blockMemory);
      if r.None? {
        return 0;
      }
      var top := Level(if pages == [] then Option.None else Option.Some(pages[|pages| - 1]), cur,
                       if blocks == [] then Option.None else Option.Some(blocks[|blocks| - 1].id));
      levels := levels + [top];
      marks := marks + [Now()];
      usable := usable + {|levels| - 1};
      level := |levels|;
      GrownRefl(Now());
    }

    /** Goes back to a level, if there is one: later blocks and pages are freed, and the last
        page is as it was. */
    method DrainToLevel(k: nat) returns (ok: bool)
      requires Valid() && 0 < k && (k <= |levels| ==> k - 1 in usable)
      modifies this`pages, this`cur, this`blocks, this`space, this`live, this`usable
      ensures Valid() && ok == (k <= |levels|)
      ensures ok ==> k <= |marks| && Now() == Drained(old(Now()), marks[k - 1]) && usable == Below(old(usable), k)
      // the pool is as it was at the mark, unless the fallback list was empty then and is not now
      ensures ok ==> (Now() == marks[k - 1] <==> marks[k - 1].blocks != [] || old(blocks) == [])
      ensures !ok ==> Now() == old(Now()) && usable == old(usable)
    {
      hide CoreOk, SpaceOf, Grown, LevelOk, Below, SumBlocks, LevelFor, Drained, Last;
      ok := k <= |levels|;
      if ok {
        LevelsDrain(size, nextId, Now(), levels, marks, usable, k);
        BlocksRestoredIff(Now(), marks[k - 1]);
        Restore(levels[k - 1], marks[k - 1]);
        usable := Below(usable, k);
      }
    }

    /** The last page as it was, and the counters less what was taken from it since. */
    method RollBack(level: Level, ghost m: Core, ghost c: Core)
      requires CoreOk(size, nextId, m) && CoreOk(size, nextId, c) && Grown(m, c) && (m.pages == [] <==> pages == [])
      requires level == LevelFor(m, if m.pages == [] then 0 else Last(m.pages).cur)
      requires pages == c.pages[..|m.pages|] && space == SpaceOf(size, pages, blocks)
      modifies this`pages, this`cur, this`space
      ensures pages == m.pages && cur == level.cur && space == SpaceOf(size, pages, blocks)
    {
      if level.page.Some? {
        BackTo(m, c, pages);
        CounterDiff(size, nextId, c, m, |pages| - 1);
        hide CoreOk, Grown;
        SpaceReplaced(size, pages, blocks, level.page.value);
      }
      hide CoreOk, SpaceOf, Grown;
      cur := level.cur;
      if level.page.Some? {
        var page := pages[|pages| - 1];
        var usedDiff, wastedDiff := page.used - level.page.value.used, page.wasted - level.page.value.wasted;
        space := space.(used := space.used - usedDiff, wasted := space.wasted - wastedDiff, free := space.free + usedDiff + wastedDiff);
        pages := pages[|pages| - 1 := level.page.value];
      }
    }

    method Restore(level: Level, ghost m: Core)
      requires PagesOk() && LevelOk(size, nextId, Now(), level, m)
      modifies this`pages, this`cur, this`blocks, this`space, this`live
      ensures PagesOk() && Now() == Drained(old(Now()), m)
    {
      ghost var c := Now();
      hide CoreOk, SpaceOf, Grown, LevelOk, LevelFor, Last, SumBlocks;
      LevelMeans(size, nextId, c, level, m);
      FreeBlocksTo(level, m);
      FreePagesTo(level, m, c);
      RollBack(level, m, c);
      live := m.live;
    }

    method FreeBlocksTo(level: Level, ghost m: Core)
      requires PagesOk() && CoreOk(size, nextId, m) && Grown(m, Now()) && level == LevelFor(m, level.cur)
      modifies this`blocks, this`space
      ensures blocks == (if m.blocks == [] then old(blocks) else m.blocks) && space == SpaceOf(size, pages, blocks)
    {
      ghost var c := Now();
      hide CoreOk, SpaceOf, Grown;
      if level.block.Some? {
        assert |m.blocks| <= |blocks| && m.blocks == blocks[..|m.blocks|] by { GrownBlocks(m, c); }
        SameBlock(size, nextId, m, c, |blocks|);
        assert c.blocks[..|blocks|] == blocks;
        while blocks[|blocks| - 1].id != level.block.value
          invariant |m.blocks| <= |blocks| <= |c.blocks| && blocks == c.blocks[..|blocks|]
          invariant c.blocks[|blocks| - 1].id == m.blocks[|m.blocks| - 1].id <==> |blocks| == |m.blocks|
          invariant space == SpaceOf(size, pages, blocks)
          decreases |blocks|
        {
          PlainOldFreeLast();
          SameBlock(size, nextId, m, c, |blocks|);
        }
      }
    }

    method FreePagesTo(level: Level, ghost m: Core, ghost c: Core)
      requires CoreOk(size, nextId, m) && CoreOk(size, nextId, c) && Grown(m, c) && level == LevelFor(m, level.cur)
      requires pages == c.pages && space == SpaceOf(size, pages, blocks) && (m.pages == [] ==> pages == [])
      modifies this`pages, this`space
      ensures pages == c.pages[..|m.pages|] && |m.pages| <= |c.pages| && space == SpaceOf(size, pages, blocks)
    {
      hide CoreOk, SpaceOf, Grown;
      assert |m.pages| <= |c.pages| by { GrownBlocks(m, c); }
      assert c.pages[..|pages|] == pages;
      if level.page.Some? {
        SamePage(size, nextId, m, c, |pages|);
        while pages[|pages| - 1].id != level.page.value.id
          invariant |m.pages| <= |pages| <= |c.pages| && pages == c.pages[..|pages|]
          invariant c.pages[|pages| - 1].id == Last(m.pages).id <==> |pages| == |m.pages|
          invariant space == SpaceOf(size, pages, blocks)
          decreases |pages|
        {
          RemoveLastPage();
          SamePage(size, nextId, m, c, |pages|);
        }
      }
    }

    /** To level zero: everything is given back, and the pool holds no pages any more. */
    method DrainAll()
      requires Valid()
      modifies this
      ensures Valid() && size == 0 && pages == [] && blocks == [] && live == [] && levels == [] && space == Space(0, 0, 0, 0, 0)
    {
      hide CoreOk;
      while blocks != []
        invariant space == SpaceOf(size, pages, blocks)
        decreases |blocks|
      {
        PlainOldFreeLast();
      }
      while pages != []
        invariant blocks == [] && space == SpaceOf(size, pages, blocks)
        decreases |pages|
      {
        RemoveLastPage();
      }
      space := Space(0, 0, 0, 0, 0);
      size, cur, levels := 0, 0, [];
      live, marks, usable := [], [], {};
      EmptyOk(nextId);
    }
  }

  /** What going back to a level needs to know. */
  lemma LevelMeans(size: nat, nextId: nat, c: Core, level: Level, m: Core)
    requires LevelOk(size, nextId, c, level, m) && CoreOk(size, nextId, c)
    ensures CoreOk(size, nextId, m) && Grown(m, c) && CoreOk(size, nextId, Drained(c, m)) && (m.pages == [] <==> size == 0)
    ensures level.cur == (if m.pages == [] then 0 else Last(m.pages).cur) && level == LevelFor(m, level.cur)
  {
    DrainedOk(size, nextId, c, m);
  }

  /** So a block that was the first of the fallback list survives: any request too large for a page, made
      after the mark. */
  method FallbackStays(pagesize: nat, sz: nat) returns (pool: Pool, k: nat)
    requires HEADER + LEVEL <= pagesize < HEADER + sz
    ensures pool.Valid() && 0 < k <= |pool.marks| && pool.Now() != pool.marks[k - 1]
    ensures pool.pages == pool.marks[k - 1].pages && pool.live == pool.marks[k - 1].live
    ensures |pool.blocks| == 1 && pool.blocks[0].size == sz && pool.marks[k - 1].blocks == []
  {
    hide CoreOk, LevelsOk, LevelOk, SpaceOf, Grown, Aligned, SumBlocks, Below;
    pool := new Pool(pagesize);
    k := MarkFresh(pool);
    ghost var m := pool.Now();
    var r := pool.Palloc(sz, false, true, true);
    assert pool.Now() == BlockAdded(m, pool.blocks[0].id, sz, false);
    var ok := pool.DrainToLevel(k);
  }

  method MarkFresh(pool: Pool) returns (k: nat)
    requires pool.Valid() && pool.Now() == Core([Page(0, 0, 0, HEADER, HEADER)], [], []) && HEADER + LEVEL <= pool.size
    requires pool.levels == [] && pool.marks == [] && pool.usable == {}
    modifies pool
    ensures pool.Valid() && pool.size == old(pool.size) && k == 1 && |pool.levels| == 1
    ensures pool.marks == [pool.Now()] && pool.usable == {0}
    ensures |pool.pages| == 1 && pool.pages[0].cur >= HEADER && pool.blocks == []
  {
    hide CoreOk, LevelsOk, LevelOk, SpaceOf, Grown, SumBlocks;
    assert FitsCurrent(pool.size, pool.Now(), LEVEL, true);
    k := pool.MarkLevel(false, false);
  }

  /** What a page has used and wasted since is how far its free space has moved. */
  lemma CounterDiff(size: nat, nextId: nat, c: Core, m: Core, i: nat)
    requires CoreOk(size, nextId, m) && CoreOk(size, nextId, c) && Grown(m, c) && i < |m.pages|
    ensures c.pages[i].cur - m.pages[i].cur == c.pages[i].used - m.pages[i].used + (c.pages[i].wasted - m.pages[i].wasted)
    ensures c.pages[i].reserved == m.pages[i].reserved
  {
    assert PageOk(size, c.pages[i]) && PageOk(size, m.pages[i]);
  }

  lemma EmptyOk(nextId: nat)
    ensures CoreOk(0, nextId, Core([], [], []))
  {
  }

  /** Going back restores the fallback list exactly if it was not empty then, or nothing has
      been added to it since. */
  lemma BlocksRestoredIff(c: Core, m: Core)
    requires Grown(m, c)
    ensures Drained(c, m) == m <==> m.blocks != [] || c.blocks == []
  {
  }

  lemma GrownBlocks(m: Core, c: Core)
    requires Grown(m, c)
    ensures |m.pages| <= |c.pages| && m.blocks <= c.blocks
  {
  }

  lemma GrownRefl(c: Core)
    ensures Grown(c, c)
  {
  }
}
