/** How the memory of a pool is divided: list heads and statistics of the size classes, then the page
    records, then the pages themselves, aligned. */
module SlabLayout {
  import opened Arithmetic
  import opened Bits
  import opened PageRuns
  import opened SlabBlocks
  import opened SlabModel

  /** Bytes of a page record, and of the counters of a size class. */
  const RECORD: nat := 24
  const STATISTICS: nat := 16

  /** Where the page records begin, how many fit with their pages, how many there is room for before
      the first page, where that begins, and how many pages there are. */
  datatype Layout = Layout(records: nat, count: nat, room: nat, start: nat, npages: nat)

  function AlignedUp(x: nat, unit: nat): nat
    requires unit > 0
  {
    Quotient(x + unit - 1, unit) * unit
  }

  function RecordsAt(pageShift: nat, first: nat): nat
    requires PageShiftOk(pageShift)
  {
    first + (pageShift - 3) * (RECORD + STATISTICS)
  }

  /** There is memory for a page and its record. */
  predicate HasMemory(pageShift: nat, first: nat, end: nat) {
    PageShiftOk(pageShift) && RecordsAt(pageShift, first) + PageSize(pageShift) + RECORD <= end
  }

  /** The memory from first to end: as many records as fit with their pages, and one page less if
      the alignment has cost one. */
  function LayoutOf(pageShift: nat, first: nat, end: nat): Layout
    requires HasMemory(pageShift, first, end)
  {
    Divided(PageSize(pageShift), RecordsAt(pageShift, first), end)
  }

  function Divided(page: nat, records: nat, end: nat): Layout
    requires page > 0 && records + page + RECORD <= end
  {
    var count := Quotient(end - records, page + RECORD);
    var start := AlignedUp(records + count * RECORD, page);
    CountFits(page, records, end);
    AlignedUpOk(records + count * RECORD, page);
    var whole := Quotient(end - start, page);
    Layout(records, count, Quotient(start - records, RECORD), start, if whole < count then whole else count)
  }

  lemma AlignedUpOk(x: nat, unit: nat)
    requires unit > 0
    ensures AlignedUp(x, unit) % unit == 0 && x <= AlignedUp(x, unit) < x + unit
  {
    var q, r := DivMod(x + unit - 1, unit);
    DivModUnique(q * unit, unit, q, 0);
  }

  /** The page records leave room for their pages, if not for the alignment. */
  lemma CountFits(page: nat, records: nat, end: nat)
    requires page > 0 && records + page + RECORD <= end
    ensures var count := Quotient(end - records, page + RECORD);
            && count >= 1
            && records + count * RECORD + count * page <= end < records + count * RECORD + count * page + page + RECORD
            && AlignedUp(records + count * RECORD, page) <= end
  {
    var count, rest := DivMod(end - records, page + RECORD);
    assert count * (page + RECORD) == count * page + count * RECORD;
    hide Quotient, AlignedUp;
    assert count >= 1;
    MulMono(1, count, page);
    AlignedUpOk(records + count * RECORD, page);
  }

  /** The pages are aligned, behind their records and inside the memory; and what is lost to records
      and alignment is less than two pages with their records. */
  lemma LayoutOk(pageShift: nat, first: nat, end: nat)
    requires HasMemory(pageShift, first, end)
    ensures var l := LayoutOf(pageShift, first, end); var page := PageSize(pageShift);
            && l.start % page == 0 && l.records + l.count * RECORD <= l.start
            && l.start + l.npages * page <= end
            && l.npages <= l.count <= l.npages + 1 && l.count <= l.room
            && end - l.records < (l.npages + 2) * (page + RECORD)
            && Tight(page, l, end)
  {
    hide Pow2;
    DividedTight(PageSize(pageShift), RecordsAt(pageShift, first), end);
    DividedOk(PageSize(pageShift), RecordsAt(pageShift, first), end);
  }

  lemma DividedOk(page: nat, records: nat, end: nat)
    requires page > 0 && records + page + RECORD <= end
    ensures var l := Divided(page, records, end);
            && l.start % page == 0 && records + l.count * RECORD <= l.start <= end && l.records == records
            && l.start + l.npages * page <= end
            && l.npages <= l.count <= l.npages + 1 && l.count <= l.room
            && end - records < (l.npages + 2) * (page + RECORD)
  {
    var l := Divided(page, records, end);
    CountFits(page, records, end);
    AlignedUpOk(records + l.count * RECORD, page);
    var whole, rest := DivMod(end - l.start, page);
    var room, odd := DivMod(l.start - records, RECORD);
    assert Quotient(end - l.start, page) == whole && Quotient(l.start - records, RECORD) == room;
    hide Quotient, AlignedUp;
    MulMono(l.npages, whole, page);
    OnePageLost(page, l.count, whole, records + l.count * RECORD, l.start, end, rest);
    LossBound(page, l.count, l.npages, end - records);
  }

  /** One record more would not fit with its page, the first page could not begin earlier, and another
      page would have no record or no room. */
  predicate Tight(page: nat, l: Layout, end: nat) {
    && end < l.records + l.count * RECORD + l.count * page + page + RECORD
    && l.start < l.records + l.count * RECORD + page
    && (l.npages == l.count || end < l.start + l.npages * page + page)
  }

  lemma DividedTight(page: nat, records: nat, end: nat)
    requires page > 0 && records + page + RECORD <= end
    ensures Tight(page, Divided(page, records, end), end)
  {
    var l := Divided(page, records, end);
    CountFits(page, records, end);
    AlignedUpOk(records + l.count * RECORD, page);
    var whole, rest := DivMod(end - l.start, page);
    assert Quotient(end - l.start, page) == whole;
    hide Quotient, AlignedUp;
  }

  lemma LossBound(page: nat, count: nat, npages: nat, size: nat)
    requires size < count * RECORD + count * page + page + RECORD && count <= npages + 1
    ensures size < (npages + 2) * (page + RECORD)
  {
    assert (count + 1) * (page + RECORD) == count * page + count * RECORD + page + RECORD;
    MulMono(count + 1, npages + 2, page + RECORD);
  }

  /** There are far fewer pages than a page record can count. */
  lemma FewPages(pageShift: nat, first: nat, end: nat)
    requires HasMemory(pageShift, first, end) && end < 2 * START
    ensures LayoutOf(pageShift, first, end).npages + 1 < START
  {
    hide Pow2, LayoutOf;
    LayoutOk(pageShift, first, end);
    SmallPower();
    Pow2Monotone(3, pageShift);
    Few(LayoutOf(pageShift, first, end).npages, PageSize(pageShift), end);
  }

  lemma Few(n: nat, page: nat, end: nat)
    requires page >= 8 && n * page <= end < 2 * START
    ensures n + 1 < START
  {
    assert n * 8 <= n * page by {
      MulMono(8, page, n);
    }
  }

  lemma OnePageLost(page: nat, count: nat, whole: nat, behind: nat, start: nat, end: nat, rest: nat)
    requires behind <= start < behind + page && behind + count * page <= end
    requires start <= end && end - start == whole * page + rest && rest < page
    ensures count <= whole + 1
  {
    if whole + 2 <= count {
      SpanBefore(whole, 2, count, page);
    }
  }
}
