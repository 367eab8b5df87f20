/** Every atomic operation keeps the ring's invariant, as long as the reader rewinds the
    reserve counter only when that is safe. */
module IpcRingSafety {
  import opened IpcSlots
  import opened Ranges
  import opened IpcRing

  /** A sender that holds no index moves on. */
  lemma SenderMoves(s: State, s': State, i: nat)
    requires RingOk(s) && i < |s.senders| && |s'.senders| == |s.senders| && s.reserve <= s'.reserve
    requires s' == s.(senders := s.senders[i := s'.senders[i]], reserve := s'.reserve, full := s'.full)
    requires !s.senders[i].Held() && SenderOk(s', i)
    requires s'.senders[i].Open() ==> s'.senders[i].next == s.reserve || (s.senders[i].Open() && s.senders[i].next == s'.senders[i].next)
    ensures RingOk(s')
  {
    forall g | g in s'.granted ensures GrantOk(s', g) { assert GrantOk(s, g); }
    forall j | 0 <= j < s'.read ensures DeliveredOk(s', j) { assert DeliveredOk(s, j); }
    forall j | s'.read <= j < s'.read + SLOTS ensures SlotOk(s', j) { assert SlotOk(s, j); }
    forall k | 0 <= k < |s.senders| ensures SenderOk(s', k) { assert SenderOk(s, k); }
    forall j, k | 0 <= j < |s.senders| && 0 <= k < |s.senders| ensures Apart(s', j, k) {
      assert Apart(s, j, k) && SenderOk(s, j) && SenderOk(s, k);
    }
  }

  /** The index is granted: nobody had it before, and its slot is free. */
  lemma GrantKeeps(s: State, i: nat)
    requires RingOk(s) && Enabled(s, Decide(i)) && !s.full && s.senders[i].next - s.senders[i].seen <= SLOTS - 1
    ensures RingOk(Apply(s, Decide(i)))
  {
    var s', n := Apply(s, Decide(i)), s.senders[i].next;
    assert SenderOk(s, i);
    Unread(s, n);
    forall g | g in s'.granted ensures GrantOk(s', g) { assert g != n ==> GrantOk(s, g); }
    forall j | 0 <= j < s'.read ensures DeliveredOk(s', j) { assert DeliveredOk(s, j); }
    forall j | s'.read <= j < s'.read + SLOTS ensures SlotOk(s', j) { assert SlotOk(s, j); }
    forall k | 0 <= k < |s.senders| ensures SenderOk(s', k) { assert SenderOk(s, k) && Apart(s, i, k); }
    forall j, k | 0 <= j < |s.senders| && 0 <= k < |s.senders| ensures Apart(s', j, k) { assert Apart(s, j, k); }
  }

  /** Writing to a held slot touches no other index of the window. */
  lemma WriteKeeps(s: State, s': State, i: nat)
    requires RingOk(s) && (Enabled(s, SetPtr(i)) || Enabled(s, SetCode(i)))
    requires s' == Apply(s, if s.senders[i].Reserved? then SetPtr(i) else SetCode(i))
    ensures RingOk(s')
  {
    var n := s.senders[i].next;
    assert SenderOk(s, i) && GrantOk(s, n);
    Unread(s, n);
    forall g | g in s'.granted ensures GrantOk(s', g) { assert GrantOk(s, g); }
    forall j | 0 <= j < s'.read ensures DeliveredOk(s', j) { assert DeliveredOk(s, j); }
    forall j | s'.read <= j < s'.read + SLOTS ensures SlotOk(s', j) {
      assert SlotOk(s, j);
      SameSlot(s.read, n, j);
    }
    forall k | 0 <= k < |s.senders| ensures SenderOk(s', k) { WriteKeepsSender(s, s', i, k); }
    forall j, k | 0 <= j < |s.senders| && 0 <= k < |s.senders| ensures Apart(s', j, k) { assert Apart(s, j, k); }
  }

  lemma WriteKeepsSender(s: State, s': State, i: nat, k: nat)
    requires RingOk(s) && (Enabled(s, SetPtr(i)) || Enabled(s, SetCode(i))) && k < |s.senders|
    requires s' == Apply(s, if s.senders[i].Reserved? then SetPtr(i) else SetCode(i))
    ensures SenderOk(s', k)
  {
    var n := s.senders[i].next;
    assert SenderOk(s, i) && SenderOk(s, k) && GrantOk(s, n);
    Unread(s, n);
    if k != i && s.senders[k].PtrSet? {
      var m := s.senders[k].next;
      assert GrantOk(s, m);
      Unread(s, m);
      SameSlot(s.read, n, m);
    }
  }

  lemma ReleaseKeeps(s: State, i: nat)
    requires RingOk(s) && Enabled(s, Release(i))
    ensures RingOk(Apply(s, Release(i)))
  {
    var s', n := Apply(s, Release(i)), s.senders[i].next;
    assert SenderOk(s, i);
    assert Counted(s');
    hide Counted;
    forall g | g in s'.granted ensures GrantOk(s', g) { assert GrantOk(s, g); }
    forall j | 0 <= j < s'.read ensures DeliveredOk(s', j) { assert DeliveredOk(s, j); }
    forall j | s'.read <= j < s'.read + SLOTS ensures SlotOk(s', j) { assert SlotOk(s, j); }
    forall k | 0 <= k < |s.senders| ensures SenderOk(s', k) { assert SenderOk(s, k); }
    forall j, k | 0 <= j < |s.senders| && 0 <= k < |s.senders| ensures Apart(s', j, k) { assert Apart(s, j, k); }
  }

  /** The reader moves on without writing to a slot or to its counter. */
  lemma ReaderMoves(s: State, s': State)
    requires RingOk(s) && s' == s.(reader := s'.reader, full := s'.full) && ReaderOk(s')
    requires !s.reader.Cleared? && !s'.reader.Cleared?
    ensures RingOk(s')
  {
    forall g | g in s'.granted ensures GrantOk(s', g) { assert GrantOk(s, g); }
    forall j | 0 <= j < s'.read ensures DeliveredOk(s', j) { assert DeliveredOk(s, j); }
    forall j | s'.read <= j < s'.read + SLOTS ensures SlotOk(s', j) { assert SlotOk(s, j); }
    forall k | 0 <= k < |s.senders| ensures SenderOk(s', k) { assert SenderOk(s, k); }
    forall j, k | 0 <= j < |s.senders| && 0 <= k < |s.senders| ensures Apart(s', j, k) { assert Apart(s, j, k); }
  }

  lemma LoadKeeps(s: State, e: Event)
    requires RingOk(s) && Enabled(s, e) && (e.LoadCode? || e.LoadPtr?)
    ensures RingOk(Apply(s, e))
  {
    assert SlotOk(s, s.read);
    assert s.read in s.granted ==> GrantOk(s, s.read);
    ReaderMoves(s, Apply(s, e));
  }

  lemma TakeKeeps(s: State)
    requires RingOk(s) && Enabled(s, Take) && s.reader.c != NIL
    ensures RingOk(Apply(s, Take))
  {
    var s' := Apply(s, Take);
    forall g | g in s'.granted ensures GrantOk(s', g) { assert GrantOk(s, g); }
    forall j | 0 <= j < s'.read ensures DeliveredOk(s', j) { assert DeliveredOk(s, j); }
    forall j | s'.read <= j < s'.read + SLOTS ensures SlotOk(s', j) {
      assert SlotOk(s, j);
      SameSlot(s.read, s.read, j);
    }
    forall k | 0 <= k < |s.senders| ensures SenderOk(s', k) { assert SenderOk(s, k); }
    forall j, k | 0 <= j < |s.senders| && 0 <= k < |s.senders| ensures Apart(s', j, k) { assert Apart(s, j, k); }
  }

  /** The slot just read becomes the last of the window, empty. */
  lemma AdvanceKeeps(s: State)
    requires RingOk(s) && Enabled(s, Advance)
    ensures RingOk(Apply(s, Advance))
  {
    var s' := Apply(s, Advance);
    assert SlotOk(s, s.read);
    forall g | g in s'.granted ensures GrantOk(s', g) { assert GrantOk(s, g); }
    forall j | 0 <= j < s'.read ensures DeliveredOk(s', j) { assert j < s.read ==> DeliveredOk(s, j); }
    forall j | s'.read <= j < s'.read + SLOTS ensures SlotOk(s', j) {
      if j < s.read + SLOTS {
        assert SlotOk(s, j);
      } else {
        assert j in s.granted ==> GrantOk(s, j);
      }
    }
    forall k | 0 <= k < |s.senders| ensures SenderOk(s', k) { assert SenderOk(s, k); }
    forall j, k | 0 <= j < |s.senders| && 0 <= k < |s.senders| ensures Apart(s', j, k) { assert Apart(s, j, k); }
  }

  /** With nobody holding an index, everything granted is released; and what was read is all
      that was granted when the counters agree. */
  lemma QuietMeans(s: State)
    requires RingOk(s) && forall i :: 0 <= i < |s.senders| ==> !s.senders[i].Held()
    ensures s.released == s.coded == s.granted.Keys
    ensures forall j :: 0 <= j < s.read ==> j in s.granted
    ensures s.read == s.release ==> forall g :: g in s.granted ==> g < s.read
  {
    forall g | g in s.granted ensures g in s.released { assert GrantOk(s, g); }
    forall j | 0 <= j < s.read ensures j in s.granted { assert DeliveredOk(s, j); }
    InitialSegment(s.released, s.read);
  }

  lemma RewindKeeps(s: State)
    requires RingOk(s) && Guarded(s, Rewind)
    ensures RingOk(Apply(s, Rewind)) && Apply(s, Rewind).reserve == s.release
  {
    var s' := Apply(s, Rewind);
    QuietMeans(s);
    forall g | g in s'.granted ensures GrantOk(s', g) { assert GrantOk(s, g); }
    forall j | 0 <= j < s'.read ensures DeliveredOk(s', j) { assert DeliveredOk(s, j); }
    forall j | s'.read <= j < s'.read + SLOTS ensures SlotOk(s', j) { assert SlotOk(s, j); }
    forall k | 0 <= k < |s.senders| ensures SenderOk(s', k) { assert SenderOk(s, k) && !s.senders[k].Busy(); }
    forall j, k | 0 <= j < |s.senders| && 0 <= k < |s.senders| ensures Apart(s', j, k) { assert Apart(s, j, k); }
  }

  lemma StepKeeps(s: State, e: Event)
    requires Inv(s) && Guarded(s, e)
    ensures Inv(Apply(s, e))
  {
    FlagKept(s, e);
    hide RingOk, FlagOk;
    if e.Start? || e.FetchAdd? || e.LoadRead? || e.Decide? || e.SetFull? {
      ReserveKeeps(s, e);
    } else {
      RestKeeps(s, e);
    }
  }

  lemma FlagKept(s: State, e: Event)
    requires Inv(s) && Guarded(s, e)
    ensures FlagOk(Apply(s, e))
  {
    hide RingOk;
    var s' := Apply(s, e);
    if s'.reader.Closing() {
      forall i | 0 <= i < |s'.senders| ensures !s'.senders[i].Held() {
        assert !s.senders[i].Held() && (s.reader.Closing() || !s.senders[i].Busy());
      }
    }
  }

  lemma ReserveKeeps(s: State, e: Event)
    requires RingOk(s) && Enabled(s, e) && (e.Start? || e.FetchAdd? || e.LoadRead? || e.Decide? || e.SetFull?)
    ensures RingOk(Apply(s, e))
  {
    assert |s.ptr| == SLOTS && |s.code| == SLOTS;
    hide LogOk, SlotsOk, ReaderOk, RewindSafe;
    var s' := Apply(s, e);
    match e {
      case Start(i, m) => SenderMoves(s, s', i);
      case FetchAdd(i) =>
        assert SenderOk(s, i);
        assert s.reserve !in s.granted by { FreshIndex(s); }
        SenderMoves(s, s', i);
      case LoadRead(i) =>
        assert SenderOk(s, i);
        SenderMoves(s, s', i);
      case Decide(i) =>
        if !s.full && s.senders[i].next - s.senders[i].seen <= SLOTS - 1 {
          GrantKeeps(s, i);
        } else {
          SenderMoves(s, s', i);
        }
      case SetFull(i) => SenderMoves(s, s', i);
    }
  }

  lemma RestKeeps(s: State, e: Event)
    requires RingOk(s) && Guarded(s, e) && !(e.Start? || e.FetchAdd? || e.LoadRead? || e.Decide? || e.SetFull?)
    ensures RingOk(Apply(s, e))
  {
    hide LogOk, SlotsOk, SendersOk, RewindSafe;
    var s' := Apply(s, e);
    match e {
      case SetPtr(i) => WriteKeeps(s, s', i);
      case SetCode(i) => WriteKeeps(s, s', i);
      case Release(i) => ReleaseKeeps(s, i);
      case Poll => ReaderMoves(s, s');
      case LoadCode => LoadKeeps(s, e);
      case LoadPtr => LoadKeeps(s, e);
      case Take =>
        if s.reader.c != NIL {
          TakeKeeps(s);
        } else {
          ReaderMoves(s, s');
        }
      case Advance => AdvanceKeeps(s);
      case CheckFull => ReaderMoves(s, s');
      case Rewind => RewindKeeps(s);
      case LoadReserve => ReaderMoves(s, s');
      case LoadRelease => ReaderMoves(s, s');
      case Unfill => ReaderMoves(s, s');
    }
  }

  lemma FreshIndex(s: State)
    requires LogOk(s)
    ensures s.reserve !in s.granted
  {
    assert s.reserve in s.granted ==> GrantOk(s, s.reserve);
  }

  /** Over whole runs, whatever the interleaving. */
  lemma {:induction false} RunSafe(s: State, es: seq<Event>)
    requires Inv(s) && Run(s, es, true)
    ensures Inv(After(s, es, true))
    decreases |es|
  {
    hide Guarded, Enabled, Apply, Inv;
    if es != [] {
      StepKeeps(s, es[0]);
      RunSafe(Apply(s, es[0]), es[1..]);
    }
  }

  /** What is delivered is, in order of index and each index once, what was granted and
      written there. */
  lemma RunDelivers(n: nat, es: seq<Event>, j: nat)
    requires Run(Initial(n), es, true) && j < |After(Initial(n), es, true).delivered|
    ensures var t := After(Initial(n), es, true);
            |t.delivered| == t.read && j in t.granted && t.delivered[j] == t.granted[j].m
  {
    InitialOk(n);
    RunSafe(Initial(n), es);
    var t := After(Initial(n), es, true);
    assert |t.delivered| == t.read;
    ReadWasGranted(t, j);
  }

  lemma ReadWasGranted(s: State, j: nat)
    requires Inv(s) && j < s.read
    ensures j < |s.delivered| && j in s.granted && s.delivered[j] == s.granted[j].m
  {
    assert DeliveredOk(s, j);
  }

  /** One operation: an index once granted stays granted for the same message, one more is
      granted only if it never was before, only the reader's Advance delivers, and a slot that
      was written for an unread index keeps its contents until the reader takes them. */
  lemma StepOverwritesNothing(s: State, e: Event, j: nat)
    requires Inv(s) && Guarded(s, e)
    ensures j in s.granted ==> j in Apply(s, e).granted && Apply(s, e).granted[j] == s.granted[j]
    ensures Apply(s, e).delivered ==
            if e.Advance? && s.read in s.granted then s.delivered + [s.granted[s.read].m] else s.delivered
    ensures j in s.coded && s.read <= j ==>
              && j < s.read + SLOTS && j in s.granted
              && Apply(s, e).ptr[j % SLOTS] == s.ptr[j % SLOTS] == s.granted[j].m.ptr
              && (!(e.Take? && j == s.read) ==> Apply(s, e).code[j % SLOTS] == s.code[j % SLOTS])
              && (!(j == s.read && s.reader.Cleared?) ==> s.code[j % SLOTS] == s.granted[j].m.code)
  {
    hide Inv, Apply;
    GrantStays(s, e, j);
    Delivers(s, e);
    if j in s.coded && s.read <= j {
      SlotStays(s, e, j);
    }
  }

  lemma GrantStays(s: State, e: Event, j: nat)
    requires Inv(s) && Guarded(s, e)
    ensures j in s.granted ==> j in Apply(s, e).granted && Apply(s, e).granted[j] == s.granted[j]
  {
    if e.Decide? {
      assert SenderOk(s, e.i);
    }
    hide RingOk;
  }

  lemma Delivers(s: State, e: Event)
    requires Inv(s) && Guarded(s, e)
    ensures Apply(s, e).delivered ==
            if e.Advance? && s.read in s.granted then s.delivered + [s.granted[s.read].m] else s.delivered
  {
    assert ReaderOk(s);
    hide RingOk;
  }

  lemma SlotStays(s: State, e: Event, j: nat)
    requires Inv(s) && Guarded(s, e) && j in s.coded && s.read <= j
    ensures j < s.read + SLOTS && j in s.granted && |s.ptr| == |s.code| == |Apply(s, e).ptr| == |Apply(s, e).code| == SLOTS
    ensures Apply(s, e).ptr[j % SLOTS] == s.ptr[j % SLOTS] == s.granted[j].m.ptr
    ensures !(e.Take? && j == s.read) ==> Apply(s, e).code[j % SLOTS] == s.code[j % SLOTS]
    ensures !(j == s.read && s.reader.Cleared?) ==> s.code[j % SLOTS] == s.granted[j].m.code
  {
    assert GrantOk(s, j) && SlotOk(s, j);
    SameSlot(s.read, s.read, j);
    if e.SetPtr? || e.SetCode? {
      WritesElsewhere(s, e.i, j);
    }
    hide RingOk, FlagOk;
  }

  lemma WritesElsewhere(s: State, i: nat, j: nat)
    requires Inv(s) && i < |s.senders| && (s.senders[i].Reserved? || s.senders[i].PtrSet?)
    ensures j in s.coded && s.read <= j ==> s.senders[i].next % SLOTS != j % SLOTS
  {
    var n := s.senders[i].next;
    assert SenderOk(s, i) && GrantOk(s, n);
    Unread(s, n);
    if j in s.coded && s.read <= j {
      assert GrantOk(s, j);
      SameSlot(s.read, n, j);
    }
  }

  lemma BelowAll(a: set<nat>, n: nat)
    requires forall j :: j in a ==> j < n
    ensures |a| <= n
    ensures |a| == n ==> forall j :: 0 <= j < n ==> j in a
  {
    SubsetSize(a, Range(0, n));
  }
}
