/** The block layer of the slab allocator: a page cut into equal blocks, and the three ways
    the allocator records which of them are handed out. */
module SlabBlocks {
  import opened Arithmetic
  import opened Bits
  import opened PageLists
  import opened PageRuns
  import opened Ranges

  const WORD_BUSY: nat := 0xffff_ffff_ffff_ffff

  /** Page sizes from 4 KiB to 64 KiB; at 64 KiB the four shift bits are used up. */
  predicate PageShiftOk(pageShift: nat) { 12 <= pageShift <= 16 }

  /** The shift at which a page has one block for every bit of a word. */
  function ExactShift(pageShift: nat): nat
    requires PageShiftOk(pageShift)
  {
    pageShift - 6
  }

  predicate ShiftOk(pageShift: nat, shift: nat) {
    PageShiftOk(pageShift) && 3 <= shift < pageShift
  }

  function Capacity(pageShift: nat, shift: nat): nat
    requires ShiftOk(pageShift, shift)
  {
    Pow2(pageShift - shift)
  }

  /** The leading blocks of a small-block page that hold its bitmap; dividing by
      2^shift * 8 is a shift by shift + 3. */
  function Reserved(pageShift: nat, shift: nat): nat
    requires ShiftOk(pageShift, shift)
  {
    if shift < ExactShift(pageShift) then
      var n := High(Capacity(pageShift, shift), shift + 3);
      if n == 0 then 1 else n
    else 0
  }

  /** The words of a small-block page's bitmap. */
  function Words(pageShift: nat, shift: nat): nat
    requires ShiftOk(pageShift, shift)
  {
    Capacity(pageShift, shift) / 64
  }

  /** The words at the start of a page that some bitmap may occupy. */
  function MaxWords(pageShift: nat): nat
    requires PageShiftOk(pageShift)
  {
    Words(pageShift, 3)
  }

  lemma ReservedValue(pageShift: nat, shift: nat)
    requires ShiftOk(pageShift, shift) && shift < ExactShift(pageShift)
    ensures Reserved(pageShift, shift) == if 2 * shift + 3 <= pageShift then Pow2(pageShift - 2 * shift - 3) else 1
  {
    HighOfPow2(pageShift - shift, shift + 3);
  }

  lemma Pow2Scaled(a: nat)
    ensures Pow2(a + 1) == 2 * Pow2(a)
    ensures Pow2(a + 2) == 4 * Pow2(a)
    ensures Pow2(a + 3) == 8 * Pow2(a)
    ensures Pow2(a + 6) == 64 * Pow2(a)
  {
    assert Pow2(a + 4) == 2 * Pow2(a + 3) && Pow2(a + 5) == 2 * Pow2(a + 4);
  }

  lemma WordsValue(pageShift: nat, shift: nat)
    requires ShiftOk(pageShift, shift) && shift < ExactShift(pageShift)
    ensures Words(pageShift, shift) == Pow2(pageShift - shift - 6)
    ensures Capacity(pageShift, shift) == 64 * Words(pageShift, shift)
  {
    Pow2Scaled(pageShift - shift - 6);
  }

  /** The bitmap of a small-block page fits the blocks reserved for it. */
  lemma BitmapFits(pageShift: nat, shift: nat)
    requires ShiftOk(pageShift, shift) && shift < ExactShift(pageShift)
    ensures 8 * Words(pageShift, shift) <= Reserved(pageShift, shift) * Pow2(shift)
  {
    hide Pow2, Words, Reserved, Capacity;
    assert 8 * Words(pageShift, shift) == Pow2(pageShift - shift - 3) by {
      WordsValue(pageShift, shift);
      Pow2Scaled(pageShift - shift - 6);
    }
    ReservedValue(pageShift, shift);
    if 2 * shift + 3 <= pageShift {
      Pow2Add(pageShift - 2 * shift - 3, shift);
    } else {
      Pow2Monotone(pageShift - shift - 3, shift);
    }
  }

  /** The reserved blocks are as large as the bitmap, if they are not just one. */
  lemma ReservedExact(pageShift: nat, shift: nat)
    requires ShiftOk(pageShift, shift) && shift < ExactShift(pageShift)
    ensures Words(pageShift, shift) >= 1
    ensures Reserved(pageShift, shift) == 1 || Reserved(pageShift, shift) * Pow2(shift) == 8 * Words(pageShift, shift)
  {
    ReservedValue(pageShift, shift);
    WordsValue(pageShift, shift);
    Pow2Scaled(pageShift - shift - 6);
    hide Pow2, Words, Reserved, Capacity;
    if 2 * shift + 3 <= pageShift {
      Pow2Add(pageShift - 2 * shift - 3, shift);
    }
  }

  /** No block is reserved in vain. */
  lemma ReservedLeast(pageShift: nat, shift: nat)
    requires ShiftOk(pageShift, shift)
    ensures shift >= ExactShift(pageShift) ==> Reserved(pageShift, shift) == 0
    ensures shift < ExactShift(pageShift) ==>
              Reserved(pageShift, shift) >= 1 && (Reserved(pageShift, shift) - 1) * Pow2(shift) < 8 * Words(pageShift, shift)
  {
    if shift < ExactShift(pageShift) {
      ReservedExact(pageShift, shift);
      hide Reserved, Words, Pow2;
      OneLess(Reserved(pageShift, shift), Pow2(shift), 8 * Words(pageShift, shift));
    }
  }

  lemma OneLess(n: nat, unit: nat, size: nat)
    requires unit >= 1 && size > 0 && (n == 1 || n * unit == size)
    ensures n >= 1 && (n - 1) * unit < size
  {
    if n > 1 {
      UnitInside(0, n - 1, n, unit);
    }
  }

  lemma SmallGeometry(pageShift: nat, shift: nat)
    requires ShiftOk(pageShift, shift) && shift < ExactShift(pageShift)
    ensures Capacity(pageShift, shift) == 64 * Words(pageShift, shift)
    ensures 2 <= Words(pageShift, shift) <= MaxWords(pageShift)
    ensures 1 <= Reserved(pageShift, shift)
    ensures (Reserved(pageShift, shift) + 1) / 64 < Words(pageShift, shift)
    ensures Reserved(pageShift, shift) + 1 < Capacity(pageShift, shift)
  {
    WordsValue(pageShift, shift);
    WordsValue(pageShift, 3);
    ReservedValue(pageShift, shift);
    Pow2Monotone(1, pageShift - shift - 6);
    Pow2Monotone(pageShift - shift - 6, pageShift - 9);
    if 2 * shift + 3 <= pageShift {
      Pow2Monotone(pageShift - 2 * shift - 3, pageShift - shift - 6);
    }
  }

  /** The arithmetic of every size class. */
  lemma Geometry(pageShift: nat, shift: nat)
    requires ShiftOk(pageShift, shift)
    ensures Capacity(pageShift, shift) >= 2
    ensures Reserved(pageShift, shift) < Capacity(pageShift, shift)
    ensures shift >= ExactShift(pageShift) ==> Reserved(pageShift, shift) == 0
    ensures shift == ExactShift(pageShift) ==> Capacity(pageShift, shift) == 64
    ensures shift > ExactShift(pageShift) ==> Capacity(pageShift, shift) <= 32
  {
    Pow2Monotone(1, pageShift - shift);
    Pow2Scaled(0);
    if shift < ExactShift(pageShift) {
      SmallGeometry(pageShift, shift);
    } else if shift > ExactShift(pageShift) {
      Pow2Monotone(pageShift - shift, 5);
    }
  }

  /** Every block a page can hand out. */
  function AllBlocks(pageShift: nat, shift: nat): set<nat>
    requires ShiftOk(pageShift, shift)
  {
    Range(Reserved(pageShift, shift), Capacity(pageShift, shift))
  }

  function KindAt(pageShift: nat, shift: nat): Kind
    requires ShiftOk(pageShift, shift)
  {
    KindOf(ExactShift(pageShift), shift)
  }

  function WordAt(words: seq<nat>, n: nat): nat {
    if n < |words| then words[n] else 0
  }

  /** The bit kept for block c: in the page itself, in the slab word, or in its upper half. */
  predicate BlockBit(pageShift: nat, slab: nat, words: seq<nat>, shift: nat, c: nat)
    requires ShiftOk(pageShift, shift) && c < Capacity(pageShift, shift)
  {
    match KindAt(pageShift, shift)
    case Small => Bit(WordAt(words, c / 64), c % 64)
    case Exact => Bit(slab, c)
    case Big => Bit(slab, 32 + c)
    case Whole => false
  }

  /** The machine words involved are in range, and the shift can be read back. */
  ghost predicate WordsOk(pageShift: nat, slab: nat, words: seq<nat>, shift: nat)
    requires ShiftOk(pageShift, shift)
  {
    && |words| == MaxWords(pageShift)
    && match KindAt(pageShift, shift)
       case Small =>
         && Low(slab, 4) == shift
         && (forall w :: 0 <= w < |words| ==> words[w] < Pow2(64))
       case Exact => slab < Pow2(64)
       case Big => Low(slab, 4) == shift && High(slab, 32) < Pow2(Capacity(pageShift, shift))
       case Whole => false
  }

  /** The bitmap agrees with the set of blocks handed out; the bitmap's own blocks count as
      taken. */
  ghost predicate BlocksOk(pageShift: nat, slab: nat, words: seq<nat>, shift: nat, busy: set<nat>)
    requires ShiftOk(pageShift, shift)
  {
    && WordsOk(pageShift, slab, words, shift)
    && busy <= AllBlocks(pageShift, shift)
    && forall c {:trigger BlockBit(pageShift, slab, words, shift, c)} :: 0 <= c < Capacity(pageShift, shift) ==>
         (BlockBit(pageShift, slab, words, shift, c) <==> c < Reserved(pageShift, shift) || c in busy)
  }

  /** The words at the start of a page, whatever they are used for. */
  ghost predicate RowOk(pageShift: nat, words: seq<nat>)
    requires PageShiftOk(pageShift)
  {
    |words| == MaxWords(pageShift) && forall w :: 0 <= w < |words| ==> words[w] < Pow2(64)
  }

  /** The slab word after the bit of block c is written, and likewise the words in the page. */
  function SlabWith(pageShift: nat, slab: nat, shift: nat, c: nat, on: bool): nat
    requires ShiftOk(pageShift, shift)
  {
    match KindAt(pageShift, shift)
    case Exact => if on then SetBit(slab, c) else ClearBit(slab, c)
    case Big => if on then SetBit(slab, 32 + c) else ClearBit(slab, 32 + c)
    case _ => slab
  }

  function WordsWith(pageShift: nat, words: seq<nat>, shift: nat, c: nat, on: bool): (r: seq<nat>)
    requires ShiftOk(pageShift, shift) && c < Capacity(pageShift, shift) && |words| == MaxWords(pageShift)
    ensures |r| == |words|
  {
    if KindAt(pageShift, shift) == Small then
      SmallGeometry(pageShift, shift);
      words[c / 64 := if on then SetBit(words[c / 64], c % 64) else ClearBit(words[c / 64], c % 64)]
    else words
  }

  lemma WordsWithRowOk(pageShift: nat, words: seq<nat>, shift: nat, c: nat, on: bool)
    requires ShiftOk(pageShift, shift) && c < Capacity(pageShift, shift) && RowOk(pageShift, words)
    ensures RowOk(pageShift, WordsWith(pageShift, words, shift, c, on))
  {
    if KindAt(pageShift, shift) == Small {
      SmallGeometry(pageShift, shift);
      BitUpdateFits(words[c / 64], c % 64, 64);
    }
  }

  lemma WordsBefore(pageShift: nat, words: seq<nat>, shift: nat, c: nat, on: bool)
    requires ShiftOk(pageShift, shift) && c < Capacity(pageShift, shift) && |words| == MaxWords(pageShift)
    ensures forall w {:trigger WordAt(WordsWith(pageShift, words, shift, c, on), w)} :: 0 <= w < c / 64 ==>
      WordAt(WordsWith(pageShift, words, shift, c, on), w) == WordAt(words, w)
  {
    if KindAt(pageShift, shift) == Small {
      SmallGeometry(pageShift, shift);
    }
  }

  lemma BigWordOk(pageShift: nat, slab: nat, shift: nat, c: nat, cap: nat)
    requires c < cap && Low(slab, 4) == shift && High(slab, 32) < Pow2(cap)
    ensures Low(SetBit(slab, 32 + c), 4) == shift && High(SetBit(slab, 32 + c), 32) < Pow2(cap)
    ensures Low(ClearBit(slab, 32 + c), 4) == shift && High(ClearBit(slab, 32 + c), 32) < Pow2(cap)
  {
    SetBitAbove(slab, 32 + c, 32);
    SetBitAbove(slab, 32 + c, 4);
    ClearBitAbove(slab, 32 + c, 32);
    ClearBitAbove(slab, 32 + c, 4);
    BitUpdateFits(High(slab, 32), c, cap);
  }

  lemma WriteBlockWordsOk(pageShift: nat, slab: nat, words: seq<nat>, shift: nat, c: nat, on: bool)
    requires ShiftOk(pageShift, shift) && c < Capacity(pageShift, shift)
    requires WordsOk(pageShift, slab, words, shift)
    ensures WordsOk(pageShift, SlabWith(pageShift, slab, shift, c, on), WordsWith(pageShift, words, shift, c, on), shift)
  {
    Geometry(pageShift, shift);
    hide Pow2, SetBit, ClearBit, High, Low;
    if shift < ExactShift(pageShift) {
      WordsWithRowOk(pageShift, words, shift, c, on);
    } else if shift == ExactShift(pageShift) {
      BitUpdateFits(slab, c, 64);
    } else {
      BigWordOk(pageShift, slab, shift, c, Capacity(pageShift, shift));
    }
  }

  lemma WriteBlockBit(pageShift: nat, slab: nat, words: seq<nat>, shift: nat, c: nat, on: bool, d: nat)
    requires ShiftOk(pageShift, shift) && c < Capacity(pageShift, shift) && d < Capacity(pageShift, shift)
    requires |words| == MaxWords(pageShift)
    ensures BlockBit(pageShift, SlabWith(pageShift, slab, shift, c, on), WordsWith(pageShift, words, shift, c, on), shift, d)
            <==> if d == c then on else BlockBit(pageShift, slab, words, shift, d)
  {
    match KindAt(pageShift, shift)
    case Small =>
      SmallGeometry(pageShift, shift);
      SetBitAt(words[c / 64], c % 64, d % 64);
      ClearBitAt(words[c / 64], c % 64, d % 64);
    case Exact =>
      SetBitAt(slab, c, d);
      ClearBitAt(slab, c, d);
    case Big =>
      SetBitAt(slab, 32 + c, 32 + d);
      ClearBitAt(slab, 32 + c, 32 + d);
  }

  /** Writing the bit of one block hands out, or takes back, that block and no other. */
  lemma WriteBlockOk(pageShift: nat, slab: nat, words: seq<nat>, shift: nat, busy: set<nat>, c: nat, on: bool)
    requires ShiftOk(pageShift, shift) && c in AllBlocks(pageShift, shift)
    requires BlocksOk(pageShift, slab, words, shift, busy)
    ensures BlocksOk(pageShift, SlabWith(pageShift, slab, shift, c, on), WordsWith(pageShift, words, shift, c, on), shift,
                     if on then busy + {c} else busy - {c})
  {
    WriteBlockWordsOk(pageShift, slab, words, shift, c, on);
    var slab', words' := SlabWith(pageShift, slab, shift, c, on), WordsWith(pageShift, words, shift, c, on);
    forall d {:trigger BlockBit(pageShift, slab', words', shift, d)} | 0 <= d < Capacity(pageShift, shift)
      ensures BlockBit(pageShift, slab', words', shift, d) <==>
        d < Reserved(pageShift, shift) || d in (if on then busy + {c} else busy - {c})
    {
      assert BlockBit(pageShift, slab, words, shift, d) <==> d < Reserved(pageShift, shift) || d in busy;
      WriteBlockBit(pageShift, slab, words, shift, c, on, d);
    }
  }

  /** The test the allocator uses to see that a page has no block left. */
  predicate LooksFull(pageShift: nat, slab: nat, words: seq<nat>, shift: nat)
    requires ShiftOk(pageShift, shift) && |words| == MaxWords(pageShift)
  {
    match KindAt(pageShift, shift)
    case Small => forall w :: 0 <= w < Words(pageShift, shift) ==> WordAt(words, w) == WORD_BUSY
    case Exact => slab == WORD_BUSY
    case Big => High(slab, 32) == Pow2(Capacity(pageShift, shift)) - 1
    case Whole => false
  }

  lemma WordBusyIsOnes()
    ensures WORD_BUSY == Pow2(64) - 1
  {
    Pow2Scaled(0);
    Pow2Scaled(6);
    Pow2Scaled(12);
    Pow2Scaled(18);
    Pow2Scaled(24);
    Pow2Scaled(30);
    Pow2Scaled(36);
    Pow2Scaled(42);
    Pow2Scaled(48);
    Pow2Scaled(54);
    Pow2Scaled(60);
    Pow2Scaled(63);
    hide Pow2;
  }

  lemma BusyWord(w: nat)
    requires w == WORD_BUSY
    ensures forall i :: 0 <= i < 64 ==> Bit(w, i)
  {
    WordBusyIsOnes();
    forall i | 0 <= i < 64 ensures Bit(w, i) {
      LowMaskBits(64, i);
    }
  }

  lemma ZeroFits()
    ensures 0 < Pow2(64)
  {
  }

  lemma LooksFullMeans(pageShift: nat, slab: nat, words: seq<nat>, shift: nat, busy: set<nat>)
    requires ShiftOk(pageShift, shift) && BlocksOk(pageShift, slab, words, shift, busy)
    ensures LooksFull(pageShift, slab, words, shift) <==> busy == AllBlocks(pageShift, shift)
  {
    if LooksFull(pageShift, slab, words, shift) {
      forall c | c in AllBlocks(pageShift, shift) ensures c in busy {
        FullHasBit(pageShift, slab, words, shift, c);
      }
    }
    if busy == AllBlocks(pageShift, shift) {
      forall c: nat | c < Capacity(pageShift, shift) ensures BlockBit(pageShift, slab, words, shift, c) {
        assert c < Reserved(pageShift, shift) || c in AllBlocks(pageShift, shift);
      }
      AllBitsLookFull(pageShift, slab, words, shift);
    }
  }

  /** A search that stops at the first clear bit finds the first free block, if the page has one. */
  lemma SearchResult(pageShift: nat, slab: nat, words: seq<nat>, shift: nat, busy: set<nat>, c: nat)
    requires ShiftOk(pageShift, shift) && BlocksOk(pageShift, slab, words, shift, busy)
    requires busy != AllBlocks(pageShift, shift) && c <= Capacity(pageShift, shift)
    requires c < Capacity(pageShift, shift) ==> !BlockBit(pageShift, slab, words, shift, c)
    requires forall d {:trigger BlockBit(pageShift, slab, words, shift, d)} :: 0 <= d < c ==> BlockBit(pageShift, slab, words, shift, d)
    ensures c in AllBlocks(pageShift, shift) && c !in busy && c < Capacity(pageShift, shift)
    ensures forall d :: d in AllBlocks(pageShift, shift) && d < c ==> d in busy
  {
    forall d | d in AllBlocks(pageShift, shift) && d < c ensures d in busy {
      assert BlockBit(pageShift, slab, words, shift, d);
    }
    if c == Capacity(pageShift, shift) {
      AllBitsLookFull(pageShift, slab, words, shift);
      LooksFullMeans(pageShift, slab, words, shift, busy);
    }
  }

  lemma SearchWord(pageShift: nat, slab: nat, words: seq<nat>, shift: nat, busy: set<nat>, c: nat, from: nat)
    requires ShiftOk(pageShift, shift) && shift >= ExactShift(pageShift)
    requires from == if shift == ExactShift(pageShift) then 0 else 32
    requires BlocksOk(pageShift, slab, words, shift, busy) && busy != AllBlocks(pageShift, shift)
    requires c <= if shift == ExactShift(pageShift) then 64 else Capacity(pageShift, shift)
    requires forall b :: from <= b < from + c ==> Bit(slab, b)
    requires c < (if shift == ExactShift(pageShift) then 64 else Capacity(pageShift, shift)) ==> !Bit(slab, from + c)
    ensures c in AllBlocks(pageShift, shift) && c !in busy
    ensures forall d :: d in AllBlocks(pageShift, shift) && d < c ==> d in busy
  {
    Geometry(pageShift, shift);
    hide BlocksOk, AllBlocks, Bit, Capacity, BlockBit, ExactShift;
    BitsOfWord(pageShift, slab, words, shift, from);
    SearchResult(pageShift, slab, words, shift, busy, c);
  }

  lemma BitsOfWord(pageShift: nat, slab: nat, words: seq<nat>, shift: nat, from: nat)
    requires ShiftOk(pageShift, shift) && shift >= ExactShift(pageShift)
    requires from == if shift == ExactShift(pageShift) then 0 else 32
    ensures forall d {:trigger BlockBit(pageShift, slab, words, shift, d)} :: 0 <= d < Capacity(pageShift, shift) ==>
              (BlockBit(pageShift, slab, words, shift, d) <==> Bit(slab, from + d))
  {
    hide Bit, Capacity;
  }

  lemma FullHasBit(pageShift: nat, slab: nat, words: seq<nat>, shift: nat, c: nat)
    requires ShiftOk(pageShift, shift) && WordsOk(pageShift, slab, words, shift)
    requires LooksFull(pageShift, slab, words, shift) && c < Capacity(pageShift, shift)
    ensures BlockBit(pageShift, slab, words, shift, c)
  {
    Geometry(pageShift, shift);
    hide Pow2, Bit, High, Capacity, WordsOk;
    match KindAt(pageShift, shift)
    case Small =>
      FullHasBitSmall(pageShift, words, shift, c);
    case Exact =>
      BusyWord(slab);
    case Big =>
      LowMaskBits(Capacity(pageShift, shift), c);
      BitOfHigh(slab, 32, c);
  }

  lemma FullHasBitSmall(pageShift: nat, words: seq<nat>, shift: nat, c: nat)
    requires ShiftOk(pageShift, shift) && shift < ExactShift(pageShift) && |words| == MaxWords(pageShift)
    requires forall w :: 0 <= w < Words(pageShift, shift) ==> WordAt(words, w) == WORD_BUSY
    requires c < Capacity(pageShift, shift)
    ensures Bit(WordAt(words, c / 64), c % 64)
  {
    SmallGeometry(pageShift, shift);
    hide Bit, Capacity, Words, MaxWords;
    BusyWord(WordAt(words, c / 64));
  }

  /** Words with every bit set, read word by word. */
  lemma OnesThroughout(words: seq<nat>, count: nat)
    requires count <= |words|
    requires forall w :: 0 <= w < |words| ==> words[w] < Pow2(64)
    requires forall c: nat :: c < 64 * count ==> Bit(words[c / 64], c % 64)
    ensures forall w :: 0 <= w < count ==> words[w] == WORD_BUSY
  {
    WordBusyIsOnes();
    hide Bit;
    forall w | 0 <= w < count ensures words[w] == WORD_BUSY {
      forall i | 0 <= i < 64 ensures Bit(words[w], i) {
        var c := 64 * w + i;
        assert c / 64 == w && c % 64 == i;
      }
      AllBitsIsOnes(words[w], 64);
    }
  }

  lemma AllBitsLookFull(pageShift: nat, slab: nat, words: seq<nat>, shift: nat)
    requires ShiftOk(pageShift, shift) && WordsOk(pageShift, slab, words, shift)
    requires forall c: nat :: c < Capacity(pageShift, shift) ==> BlockBit(pageShift, slab, words, shift, c)
    ensures LooksFull(pageShift, slab, words, shift)
  {
    Geometry(pageShift, shift);
    WordBusyIsOnes();
    match KindAt(pageShift, shift)
    case Small =>
      SmallGeometry(pageShift, shift);
      forall c: nat | c < 64 * Words(pageShift, shift) ensures Bit(words[c / 64], c % 64) {
        assert BlockBit(pageShift, slab, words, shift, c);
      }
      OnesThroughout(words, Words(pageShift, shift));
    case Exact =>
      forall i | 0 <= i < 64 ensures Bit(slab, i) {
        assert BlockBit(pageShift, slab, words, shift, i);
      }
      AllBitsIsOnes(slab, 64);
    case Big =>
      forall i | 0 <= i < Capacity(pageShift, shift) ensures Bit(High(slab, 32), i) {
        assert BlockBit(pageShift, slab, words, shift, i);
        BitOfHigh(slab, 32, i);
      }
      AllBitsIsOnes(High(slab, 32), Capacity(pageShift, shift));
  }

  /** The test the allocator uses to see that a page's last block came back. */
  predicate LooksEmpty(pageShift: nat, slab: nat, words: seq<nat>, shift: nat)
    requires ShiftOk(pageShift, shift) && |words| == MaxWords(pageShift)
  {
    match KindAt(pageShift, shift)
    case Small =>
      var n := Reserved(pageShift, shift);
      && High(WordAt(words, n / 64), n % 64) == 0
      && forall w :: n / 64 < w < Words(pageShift, shift) ==> WordAt(words, w) == 0
    case Exact => slab == 0
    case Big => High(slab, 32) == 0
    case Whole => false
  }

  lemma LooksEmptyMeans(pageShift: nat, slab: nat, words: seq<nat>, shift: nat, busy: set<nat>)
    requires ShiftOk(pageShift, shift) && BlocksOk(pageShift, slab, words, shift, busy)
    ensures LooksEmpty(pageShift, slab, words, shift) <==> busy == {}
  {
    if LooksEmpty(pageShift, slab, words, shift) {
      forall c | c in busy ensures false {
        assert BlockBit(pageShift, slab, words, shift, c);
        EmptyHasNoBit(pageShift, slab, words, shift, c);
      }
    }
    if busy == {} {
      NoBitsLookEmpty(pageShift, slab, words, shift) by {
        forall c: nat | Reserved(pageShift, shift) <= c < Capacity(pageShift, shift)
          ensures !BlockBit(pageShift, slab, words, shift, c)
        {
        }
      }
    }
  }

  lemma EmptyHasNoBit(pageShift: nat, slab: nat, words: seq<nat>, shift: nat, c: nat)
    requires ShiftOk(pageShift, shift) && WordsOk(pageShift, slab, words, shift)
    requires LooksEmpty(pageShift, slab, words, shift)
    requires Reserved(pageShift, shift) <= c < Capacity(pageShift, shift)
    ensures !BlockBit(pageShift, slab, words, shift, c)
  {
    match KindAt(pageShift, shift)
    case Small =>
      SmallGeometry(pageShift, shift);
      var n := Reserved(pageShift, shift);
      ZeroBitFrom(words, Words(pageShift, shift), n, c);
    case Exact =>
      ZeroHasNoBit(c);
    case Big =>
      BitOfHigh(slab, 32, c);
      ZeroHasNoBit(c);
  }

  /** Words that are zero from position n on have no bit there. */
  lemma ZeroBitFrom(words: seq<nat>, count: nat, n: nat, c: nat)
    requires count <= |words| && n <= c && c / 64 < count
    requires High(words[n / 64], n % 64) == 0
    requires forall w :: n / 64 < w < count ==> WordAt(words, w) == 0
    ensures !Bit(words[c / 64], c % 64)
  {
    hide Bit, High;
    if c / 64 == n / 64 {
      BitOfHigh(words[n / 64], n % 64, c % 64 - n % 64);
      ZeroHasNoBit(c % 64 - n % 64);
    } else {
      assert WordAt(words, c / 64) == 0;
      ZeroHasNoBit(c % 64);
    }
  }

  lemma {:induction false} HighFits(w: nat, m: nat, n: nat)
    requires m <= n && w < Pow2(n)
    ensures High(w, m) < Pow2(n - m)
  {
    if m > 0 {
      HighFits(w / 2, m - 1, n - 1);
    }
  }

  lemma NoBitsLookEmpty(pageShift: nat, slab: nat, words: seq<nat>, shift: nat)
    requires ShiftOk(pageShift, shift) && WordsOk(pageShift, slab, words, shift)
    requires forall c: nat :: Reserved(pageShift, shift) <= c < Capacity(pageShift, shift)
               ==> !BlockBit(pageShift, slab, words, shift, c)
    ensures LooksEmpty(pageShift, slab, words, shift)
  {
    Geometry(pageShift, shift);
    match KindAt(pageShift, shift)
    case Small =>
      NoBitsLookEmptySmall(pageShift, slab, words, shift);
    case Exact =>
      forall i | 0 <= i < 64 ensures !Bit(slab, i) {
        assert !BlockBit(pageShift, slab, words, shift, i);
      }
      NoBitIsZero(slab, 64);
    case Big =>
      forall i | 0 <= i < Capacity(pageShift, shift) ensures !Bit(High(slab, 32), i) {
        assert !BlockBit(pageShift, slab, words, shift, i);
        BitOfHigh(slab, 32, i);
      }
      NoBitIsZero(High(slab, 32), Capacity(pageShift, shift));
  }

  lemma NoBitsLookEmptySmall(pageShift: nat, slab: nat, words: seq<nat>, shift: nat)
    requires ShiftOk(pageShift, shift) && WordsOk(pageShift, slab, words, shift)
    requires KindAt(pageShift, shift) == Small
    requires forall c: nat :: Reserved(pageShift, shift) <= c < Capacity(pageShift, shift)
               ==> !BlockBit(pageShift, slab, words, shift, c)
    ensures LooksEmpty(pageShift, slab, words, shift)
  {
    SmallGeometry(pageShift, shift);
    var n := Reserved(pageShift, shift);
    forall c: nat | n <= c < 64 * Words(pageShift, shift) ensures !Bit(words[c / 64], c % 64) {
      assert !BlockBit(pageShift, slab, words, shift, c);
    }
    ZeroFrom(words, Words(pageShift, shift), n);
  }

  /** Words without a bit from position n on, read word by word. */
  lemma ZeroFrom(words: seq<nat>, count: nat, n: nat)
    requires count <= |words| && n / 64 < count
    requires forall w :: 0 <= w < |words| ==> words[w] < Pow2(64)
    requires forall c: nat :: n <= c < 64 * count ==> !Bit(words[c / 64], c % 64)
    ensures High(words[n / 64], n % 64) == 0
    ensures forall w :: n / 64 < w < count ==> words[w] == 0
  {
    hide Bit, Pow2, High;
    forall w | n / 64 < w < count ensures words[w] == 0 {
      forall i | 0 <= i < 64 ensures !Bit(words[w], i) {
        var c := 64 * w + i;
        assert c / 64 == w && c % 64 == i;
      }
      NoBitIsZero(words[w], 64);
    }
    var word, m := words[n / 64], n % 64;
    HighFits(word, m, 64);
    forall i | 0 <= i < 64 - m ensures !Bit(High(word, m), i) {
      BitOfHigh(word, m, i);
      var c := n + i;
      assert c / 64 == n / 64 && c % 64 == m + i;
    }
    NoBitIsZero(High(word, m), 64 - m);
  }

  // ---- a page that has just been cut into blocks

  /** The slab word and bitmap of a fresh page whose first block is handed out. */
  function FreshSlab(pageShift: nat, shift: nat): nat
    requires ShiftOk(pageShift, shift)
  {
    match KindAt(pageShift, shift)
    case Small => shift
    case Exact => 1
    case Big => Compose(1, shift, 32)
    case Whole => 0
  }

  /** The bitmap of a fresh page: the reserved blocks and the first block are marked. */
  ghost predicate FreshWords(pageShift: nat, words: seq<nat>, shift: nat)
    requires ShiftOk(pageShift, shift) && |words| == MaxWords(pageShift)
  {
    KindAt(pageShift, shift) == Small ==>
      var n := Reserved(pageShift, shift) + 1;
      && (forall w :: 0 <= w < n / 64 ==> WordAt(words, w) == WORD_BUSY)
      && WordAt(words, n / 64) == Pow2(n % 64) - 1
      && (forall w :: n / 64 < w < Words(pageShift, shift) ==> WordAt(words, w) == 0)
      && (forall w :: 0 <= w < |words| ==> words[w] < Pow2(64))
  }

  lemma FreshWordsOk(pageShift: nat, words: seq<nat>, shift: nat)
    requires ShiftOk(pageShift, shift) && |words| == MaxWords(pageShift) && FreshWords(pageShift, words, shift)
    ensures WordsOk(pageShift, FreshSlab(pageShift, shift), words, shift)
  {
    Geometry(pageShift, shift);
    assert Pow2(4) == 16;
    match KindAt(pageShift, shift)
    case Small =>
      SmallGeometry(pageShift, shift);
      LowOfSmall(shift, 4);
      WordBusyIsOnes();
      Pow2Monotone((Reserved(pageShift, shift) + 1) % 64, 64);
    case Exact =>
      Pow2Monotone(1, 64);
    case Big =>
      Pow2Monotone(4, 32);
      ComposeParts(1, shift, 32);
      LowOfLow(FreshSlab(pageShift, shift), 32, 4);
      LowOfSmall(shift, 4);
      Pow2Monotone(1, Capacity(pageShift, shift));
  }

  lemma FreshBitSmall(pageShift: nat, words: seq<nat>, shift: nat, c: nat)
    requires ShiftOk(pageShift, shift) && |words| == MaxWords(pageShift) && FreshWords(pageShift, words, shift)
    requires c < Capacity(pageShift, shift) && KindAt(pageShift, shift) == Small
    ensures Bit(WordAt(words, c / 64), c % 64) <==> c <= Reserved(pageShift, shift)
  {
    SmallGeometry(pageShift, shift);
    var n := Reserved(pageShift, shift) + 1;
    if c / 64 < n / 64 {
      WordBusyIsOnes();
      LowMaskBits(64, c % 64);
    } else if c / 64 == n / 64 {
      LowMaskBits(n % 64, c % 64);
    } else {
      ZeroHasNoBit(c % 64);
    }
  }

  lemma FreshBit(pageShift: nat, words: seq<nat>, shift: nat, c: nat)
    requires ShiftOk(pageShift, shift) && |words| == MaxWords(pageShift) && FreshWords(pageShift, words, shift)
    requires c < Capacity(pageShift, shift)
    ensures BlockBit(pageShift, FreshSlab(pageShift, shift), words, shift, c) <==> c <= Reserved(pageShift, shift)
  {
    Geometry(pageShift, shift);
    match KindAt(pageShift, shift)
    case Small =>
      FreshBitSmall(pageShift, words, shift, c);
    case Exact =>
      LowMaskBits(1, c);
    case Big =>
      FreshBitBig(shift, c);
  }

  lemma FreshBitBig(shift: nat, c: nat)
    requires shift < 16
    ensures Bit(Compose(1, shift, 32), 32 + c) <==> c == 0
  {
    assert Pow2(4) == 16;
    Pow2Monotone(4, 32);
    ComposeParts(1, shift, 32);
    hide Compose, High, Low;
    BitOfHigh(Compose(1, shift, 32), 32, c);
    LowMaskBits(1, c);
  }

  lemma FreshBlocksOk(pageShift: nat, words: seq<nat>, shift: nat)
    requires ShiftOk(pageShift, shift) && |words| == MaxWords(pageShift) && FreshWords(pageShift, words, shift)
    ensures BlocksOk(pageShift, FreshSlab(pageShift, shift), words, shift, {Reserved(pageShift, shift)})
  {
    Geometry(pageShift, shift);
    FreshWordsOk(pageShift, words, shift);
    var slab := FreshSlab(pageShift, shift);
    forall c {:trigger BlockBit(pageShift, slab, words, shift, c)} | 0 <= c < Capacity(pageShift, shift)
      ensures BlockBit(pageShift, slab, words, shift, c) <==>
        c < Reserved(pageShift, shift) || c in {Reserved(pageShift, shift)}
    {
      FreshBit(pageShift, words, shift, c);
    }
  }
}
