/** When the rewind of the reserve counter is safe, and when the assertion after it holds. */
module IpcRingRewind {
  import opened IpcSlots
  import opened IpcRing
  import opened IpcRingSafety
  import opened IpcRingRuns

  /** Sender k is about to be granted an index that already holds a message nobody has read: of
      the two, one is lost. */
  predicate Regrants(s: State, k: nat) {
    && Enabled(s, Decide(k)) && !s.full && s.senders[k].next - s.senders[k].seen <= SLOTS - 1
    && s.read <= s.senders[k].next && s.senders[k].next in s.coded && s.senders[k].next in s.granted
  }

  /** However all later rewinds are timed: these are all guarded. */
  ghost predicate CanLose(s: State) {
    exists t, k :: Reaches(s, t, true) && Regrants(t, k)
  }

  /** The guard is exact: a rewind is without danger if and only if everything released has been
      read and no sender holds an index or may still be granted one. */
  lemma RewindLosesIff(s: State)
    requires Inv(s) && Enabled(s, Rewind)
    ensures CanLose(Apply(s, Rewind)) <==> !RewindSafe(s)
  {
    if RewindSafe(s) {
      forall t, k | Reaches(Apply(s, Rewind), t, true) ensures !Regrants(t, k) {
        StepKeeps(s, Rewind);
        ReachesSafe(Apply(s, Rewind), t);
        NeverRegrants(t, k);
      }
    } else if g :| g in s.granted && s.read <= g {
      LosesUnread(s, g);
    } else {
      LosesOpen(s);
    }
  }

  lemma NeverRegrants(s: State, k: nat)
    requires Inv(s)
    ensures !Regrants(s, k)
  {
    assert k < |s.senders| ==> SenderOk(s, k);
  }

  /** The same, about the invariant: rewinding keeps it exactly when the guard holds. */
  lemma RewindSafeIff(s: State)
    requires Inv(s) && Enabled(s, Rewind)
    ensures Inv(Apply(s, Rewind)) <==> RewindSafe(s)
  {
    if RewindSafe(s) {
      StepKeeps(s, Rewind);
    } else {
      RewindLosesIff(s);
      var t, k :| Reaches(Apply(s, Rewind), t, true) && Regrants(t, k);
      if Inv(Apply(s, Rewind)) {
        ReachesSafe(Apply(s, Rewind), t);
        NeverRegrants(t, k);
      }
    }
  }

  /** In a ring marked full a sender comes to rest without taking a new index. */
  lemma ComesToRest(s: State, j: nat) returns (t: State)
    requires Sized(s) && s.full && j < |s.senders| && (s.senders[j].CodeSet? ==> s.senders[j].next in s.coded)
    requires s.senders[j].Checked? ==> s.senders[j].m.code != NIL
    ensures Reaches(s, t, true) && Sized(t) && |t.senders| == |s.senders|
    ensures t == s.(senders := s.senders[j := t.senders[j]], release := t.release, ptr := t.ptr, code := t.code,
                    coded := t.coded, released := t.released)
    ensures Ready(t.senders[j])
    ensures s.coded <= t.coded && (s.senders[j].Held() ==> s.senders[j].next in t.coded)
    ensures !s.senders[j].Held() ==> t.release == s.release
  {
    hide Reaches;
    Stay(s, true);
    t := s;
    if s.senders[j].Held() {
      t := Completes(s, j);
    } else if s.senders[j].Over? {
      t := Then(s, t, SetFull(j), true);
    } else if s.senders[j].Waits() {
      if s.senders[j].Added? {
        t := Then(s, t, LoadRead(j), true);
      }
      t := Then(s, t, Decide(j), true);
    }
    assert t.senders == s.senders[j := t.senders[j]];
  }

  /** A sender fills the ring up to index g, and is about to be granted g. */
  lemma FillsUpTo(s: State, j: nat, g: nat) returns (t: State)
    requires Sized(s) && j < |s.senders| && Ready(s.senders[j]) && !s.full
    requires s.reserve <= g < s.read + SLOTS
    ensures Reaches(s, t, true) && j < |t.senders| && Enabled(t, Decide(j)) && !t.full && t.read == s.read
    ensures t.senders[j].next == g && t.senders[j].seen == s.read
    ensures s.granted.Keys <= t.granted.Keys && s.coded <= t.coded
  {
    hide Reaches;
    var m := Msg(1, 0);
    t := SendsRun(s, j, m, g - s.reserve, true);
    var u := Looks(t, j, m, true);
    Join(s, t, u, true);
    t := Then(s, u, FetchAdd(j), true);
    t := Then(s, t, LoadRead(j), true);
  }

  /** Something granted is still unread: its sender, or any other, comes to its index again. */
  lemma LosesUnread(s: State, g: nat)
    requires Inv(s) && Enabled(s, Rewind) && g in s.granted && s.read <= g
    ensures CanLose(Apply(s, Rewind))
  {
    assert GrantOk(s, g);
    var j := s.granted[g].owner;
    assert SenderOk(s, j);
    var r := Apply(s, Rewind);
    hide Reaches, Inv;
    var t := ComesToRest(r, j);
    assert g in t.coded;
    var u := Reopens(t);
    Join(r, t, u, true);
    t := FillsUpTo(u, j, g);
    Join(r, u, t, true);
    assert Regrants(t, j);
  }

  /** A sender that was granted g after the rewind finishes, and comes to g again. */
  lemma LosesGranted(r: State, s: State, i: nat)
    requires Reaches(r, s, true)
    requires Sized(s) && i < |s.senders| && s.senders[i].Loaded? && !s.full && s.reserve <= s.senders[i].next
    requires s.senders[i].next < s.senders[i].seen + SLOTS && s.senders[i].seen <= s.read <= s.senders[i].next
    ensures CanLose(r)
  {
    hide Reaches;
    var g := s.senders[i].next;
    var t := Then(r, s, Decide(i), true);
    var u := Completes(t, i);
    Join(r, t, u, true);
    t := FillsUpTo(u, i, g);
    Join(r, u, t, true);
    assert Regrants(t, i);
  }

  /** What k messages passed through an empty ring leave behind. */
  ghost predicate PassedMany(s: State, t: State, k: nat, j: nat)
    requires j < |s.senders|
  {
    && Sized(t) && t.read == t.release == t.reserve == s.read + k && !t.full && t.reader.Polling?
    && |t.senders| == |s.senders| && t.senders == s.senders[j := t.senders[j]]
  }

  lemma {:induction false} PassesRun(s: State, j: nat, k: nat) returns (t: State)
    requires Sized(s) && s.read == s.release == s.reserve && !s.full && s.reader.Polling?
    requires j < |s.senders| && Ready(s.senders[j])
    ensures Reaches(s, t, true) && PassedMany(s, t, k, j)
    decreases k
  {
    hide Reaches;
    t := s;
    Stay(s, true);
    if k > 0 {
      var s1 := Looks(s, j, Msg(1, 0), true);
      var s2 := SendRuns(s1, j, true);
      Join(s, s1, s2, true);
      var s3 := ReceiveRuns(s2, true);
      Join(s, s2, s3, true);
      t := PassesRun(s3, j, k - 1);
      Join(s, s3, t, true);
    }
  }

  /** Nothing granted is unread, but some sender may still be granted the index it has: the rewind
      does not take that index back, and comes to it a second time. */
  lemma LosesOpen(s: State)
    requires Inv(s) && Enabled(s, Rewind) && !RewindSafe(s) && forall g :: g in s.granted ==> g < s.read
    ensures CanLose(Apply(s, Rewind))
  {
    var i := NobodyHolds(s);
    var j := if i == 0 then 1 else 0;
    var n := s.senders[i].next;
    assert SenderOk(s, i) && SenderOk(s, j);
    Unread(s, n);
    var r := Apply(s, Rewind);
    hide Reaches, Inv;
    var t := ComesToRest(r, j);
    var u := Reopens(t);
    Join(r, t, u, true);
    if s.senders[i].Added? {
      t := PassesRun(u, j, if n < s.read + SLOTS then 0 else n - (SLOTS - 1) - s.read);
      Join(r, u, t, true);
      u := Then(r, t, LoadRead(i), true);
    }
    LosesGranted(r, u, i);
  }

  lemma NobodyHolds(s: State) returns (i: nat)
    requires Inv(s) && Enabled(s, Rewind) && !RewindSafe(s) && forall g :: g in s.granted ==> g < s.read
    ensures s.read == s.release && forall k :: 0 <= k < |s.senders| ==> !s.senders[k].Held()
    ensures i < |s.senders| && s.senders[i].Open() && |s.senders| > 1
  {
    BelowAll(s.released, s.read);
    forall k | 0 <= k < |s.senders| ensures !s.senders[k].Held() {
      assert SenderOk(s, k);
    }
    i :| 0 <= i < |s.senders| && s.senders[i].Busy();
  }

  /** How often somebody added to the reserve counter. */
  function Adds(es: seq<Event>): nat {
    if es == [] then 0 else (if es[0].FetchAdd? then 1 else 0) + Adds(es[1..])
  }

  predicate BySender(e: Event) {
    e.Start? || e.FetchAdd? || e.LoadRead? || e.Decide? || e.SetFull? || e.SetPtr? || e.SetCode? || e.Release?
  }

  lemma {:induction false} WhileClosing(s: State, es: seq<Event>)
    requires Inv(s) && s.reader.Closing() && Run(s, es, true) && forall e :: e in es ==> BySender(e)
    ensures var t := After(s, es, true);
            && Inv(t) && t.reader == s.reader && t.read == s.read && t.release == s.release
            && t.reserve == s.reserve + Adds(es)
    decreases |es|
  {
    if es != [] {
      ClosingStep(s, es[0]);
      hide Inv;
      StepKeeps(s, es[0]);
      WhileClosing(Apply(s, es[0]), es[1..]);
    }
  }

  lemma ClosingStep(s: State, e: Event)
    requires Inv(s) && s.reader.Closing() && Guarded(s, e) && BySender(e)
    ensures var t := Apply(s, e);
            t.reader == s.reader && t.read == s.read && t.release == s.release && t.reserve == s.reserve + Adds([e])
  {
    hide RingOk;
    assert [e][1..] == [];
  }

  /** After a safe rewind, the assertion that compares the two counters: it holds if and only if no
      sender added to the reserve counter between the rewind and the loading of that counter. */
  lemma AssertionIff(s: State, es: seq<Event>, fs: seq<Event>)
    requires Inv(s) && Guarded(s, Rewind) && forall e :: e in es + fs ==> BySender(e)
    requires Run(s, [Rewind] + es + [LoadReserve] + fs, true)
    ensures var t := After(s, [Rewind] + es + [LoadReserve] + fs, true);
            t.reader.Compared? && (t.reader.r == t.release <==> Adds(es) == 0)
  {
    hide Inv, Apply, Guarded, Enabled;
    var s1 := Apply(s, Rewind);
    StepKeeps(s, Rewind);
    assert ([Rewind] + es + [LoadReserve] + fs)[1..] == es + ([LoadReserve] + fs);
    RunSplits(s1, es, [LoadReserve] + fs, true);
    var t1 := After(s1, es, true);
    assert s1.reader == Comparing && s1.reserve == s.release == s1.release by { RewoundTo(s); }
    WhileClosing(s1, es);
    assert ([LoadReserve] + fs)[1..] == fs;
    var t2 := Apply(t1, LoadReserve);
    StepKeeps(t1, LoadReserve);
    assert t2 == t1.(reader := Compared(t1.reserve)) by { Loaded(t1); }
    WhileClosing(t2, fs);
  }

  lemma RewoundTo(s: State)
    requires Guarded(s, Rewind)
    ensures var t := Apply(s, Rewind); t.reader == Comparing && t.reserve == s.release == t.release
  {
  }

  lemma Loaded(s: State)
    requires Enabled(s, LoadReserve)
    ensures Apply(s, LoadReserve) == s.(reader := Compared(s.reserve))
  {
  }

  lemma {:induction false} RunSplits(s: State, es: seq<Event>, fs: seq<Event>, guarded: bool)
    requires Run(s, es + fs, guarded)
    ensures Run(s, es, guarded) && Run(After(s, es, guarded), fs, guarded)
    ensures After(s, es + fs, guarded) == After(After(s, es, guarded), fs, guarded)
    decreases |es|
  {
    hide Guarded, Enabled, Apply;
    if es == [] {
      assert es + fs == fs;
    } else {
      assert (es + fs)[1..] == es[1..] + fs;
      RunSplits(Apply(s, es[0]), es[1..], fs, guarded);
    }
  }

  /** How often somebody released an index. */
  function Releases(es: seq<Event>): nat {
    if es == [] then 0 else (if es[0].Release? then 1 else 0) + Releases(es[1..])
  }

  lemma {:induction false} SendersCount(s: State, es: seq<Event>)
    requires Run(s, es, false) && forall e :: e in es ==> BySender(e)
    ensures var t := After(s, es, false);
            && t.reader == s.reader && t.read == s.read
            && t.reserve == s.reserve + Adds(es) && t.release == s.release + Releases(es)
    decreases |es|
  {
    hide Enabled, Guarded, Apply;
    if es != [] {
      assert es[0] in es;
      SenderCounts(s, es[0]);
      SendersCount(Apply(s, es[0]), es[1..]);
    }
  }

  lemma SenderCounts(s: State, e: Event)
    requires Enabled(s, e) && BySender(e)
    ensures var t := Apply(s, e);
            && t.reader == s.reader && t.read == s.read
            && t.reserve == s.reserve + (if e.FetchAdd? then 1 else 0) && t.release == s.release + (if e.Release? then 1 else 0)
  {
  }

  /** After any rewind at all: the assertion compares what was read and added since with what was and
      is released. */
  lemma AssertionCounts(s: State, es: seq<Event>, fs: seq<Event>)
    requires Enabled(s, Rewind) && forall e :: e in es + fs ==> BySender(e)
    requires Run(s, [Rewind] + es + [LoadReserve] + fs, false)
    ensures var t := After(s, [Rewind] + es + [LoadReserve] + fs, false);
            && t.reader.Compared?
            && (t.reader.r == t.release <==> s.read + Adds(es) == s.release + Releases(es) + Releases(fs))
  {
    var s1 := Apply(s, Rewind);
    assert s1.reader == Comparing && s1.reserve == s.read && s1.release == s.release;
    hide Apply, Guarded, Enabled;
    assert ([Rewind] + es + [LoadReserve] + fs)[1..] == es + ([LoadReserve] + fs);
    RunSplits(s1, es, [LoadReserve] + fs, false);
    var t1 := After(s1, es, false);
    SendersCount(s1, es);
    assert ([LoadReserve] + fs)[1..] == fs;
    Loaded(t1);
    SendersCount(Apply(t1, LoadReserve), fs);
  }

  /** That a rewind can be unsafe, and what happens then, from the empty ring on.  The first sender
      is slow with index 0; the second fills the ring; the reader, which takes index 0 as soon as
      its code is there, catches up with the number of releases while index 255 is still unread,
      and rewinds: index 255 is granted again, and the message in its slot is overwritten. */
  lemma UnguardedRewindLosesMessage(first: Msg, second: Msg, third: Msg) returns (s: State, t: State)
    requires first.code != NIL && second.code != NIL && third.code != NIL && third.ptr != second.ptr
    ensures Reaches(Initial(2), s, true) && Reaches(s, t, false)
    ensures 255 in s.coded && 255 in s.granted && |s.ptr| == SLOTS && s.granted[255] == Grant(second, 1) && s.ptr[255] == second.ptr
    ensures t.read <= 255 && 255 in t.granted && |t.ptr| == SLOTS && t.granted[255] == Grant(third, 1) && t.ptr[255] == third.ptr
  {
    hide Reaches, Inv;
    var s0 := Initial(2);
    InitialOk(2);
    var u := GrantsZero(first);
    t := SendsRun(u, 1, second, 254, true);
    Join(s0, u, t, true);
    u := FillsLast(t, second);
    Join(s0, t, u, true);
    t := Then(s0, u, SetPtr(0), true);
    s := Then(s0, t, SetCode(0), true);
    ReachesSafe(s0, s);
    t := RewindAndSend(s, third);
  }

  lemma GrantsZero(first: Msg) returns (t: State)
    requires first.code != NIL
    ensures Reaches(Initial(2), t, true)
    ensures t == Initial(2).(reserve := 1, senders := [Reserved(first, 0), Idle], granted := map[0 := Grant(first, 0)])
  {
    hide Reaches;
    var s0 := Initial(2);
    Stay(s0, true);
    t := Then(s0, s0, Start(0, first), true);
    t := Then(s0, t, FetchAdd(0), true);
    t := Then(s0, t, LoadRead(0), true);
    t := Then(s0, t, Decide(0), true);
    assert t.senders == [Reserved(first, 0), Idle];
  }

  lemma FillsLast(s: State, second: Msg) returns (t: State)
    requires Sized(s) && |s.senders| == 2 && s.senders[1].Idle? && !s.full && second.code != NIL
    requires s.reserve == 255 && s.read == 0
    ensures Reaches(s, t, true)
    ensures t == Sent(s, 1, second).(full := true, reserve := 257, senders := s.senders)
  {
    hide Reaches;
    var u := Looks(s, 1, second, true);
    t := SendRuns(u, 1, true);
    Join(s, u, t, true);
    u := Overfills(t, 1, second);
    Join(s, t, u, true);
    t := u;
    assert t.senders == s.senders;
  }

  /** A sender finds more than 255 indices unread, and sets the flag. */
  lemma Overfills(s: State, i: nat, m: Msg) returns (t: State)
    requires i < |s.senders| && s.senders[i].Idle? && !s.full && s.reserve == s.read + SLOTS && m.code != NIL
    ensures Reaches(s, t, true) && t == s.(full := true, reserve := s.reserve + 1)
  {
    hide Reaches;
    Stay(s, true);
    t := Then(s, s, Start(i, m), true);
    t := Then(s, t, FetchAdd(i), true);
    t := Then(s, t, LoadRead(i), true);
    t := Then(s, t, Decide(i), true);
    t := Then(s, t, SetFull(i), true);
    assert t.senders == s.senders;
  }

  lemma RewindAndSend(s: State, third: Msg) returns (t: State)
    requires Inv(s) && s.reader.Polling? && s.read == 0 && s.release == 255 && s.full && third.code != NIL
    requires forall j :: 0 <= j < 255 ==> j in s.coded
    requires Sized(s) && |s.senders| == 2 && s.senders[1].Idle?
    ensures Reaches(s, t, false) && t.read <= 255 && |t.ptr| == SLOTS && t.ptr[255] == third.ptr
    ensures 255 in t.granted && t.granted[255] == Grant(third, 1)
  {
    hide Reaches, Inv;
    t := ReceivesRun(s, 255);
    Unguarded(s, t);
    t := Then(s, t, Poll, false);
    t := Then(s, t, CheckFull, false);
    t := Then(s, t, Rewind, false);
    var u := Reopens(t);
    Unguarded(t, u);
    Join(s, t, u, false);
    t := Then(s, u, Start(1, third), false);
    t := Then(s, t, FetchAdd(1), false);
    t := Then(s, t, LoadRead(1), false);
    t := Then(s, t, Decide(1), false);
    t := Then(s, t, SetPtr(1), false);
  }
}
