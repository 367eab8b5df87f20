/** When the ring can get stuck for good: only if a sender finds more than 255 indices unread, and
    then, with two senders, always. */
module IpcRingStuck {
  import opened IpcSlots
  import opened IpcRing
  import opened IpcRingSafety
  import opened IpcRingRuns

  /** The next index to read will never be written, though a later one was granted. */
  predicate Stuck(s: State) {
    && s.read !in s.granted
    && (exists g :: g in s.granted && s.read < g)
    && forall i :: 0 <= i < |s.senders| && s.senders[i].Waits() ==> s.senders[i].next != s.read
  }

  /** A ring that is stuck delivers nothing ever again, with every rewind guarded. */
  lemma {:induction false} StuckForever(s: State, es: seq<Event>)
    requires Inv(s) && Stuck(s) && Run(s, es, true)
    ensures Stuck(After(s, es, true)) && After(s, es, true).delivered == s.delivered
    decreases |es|
  {
    hide Guarded, Enabled, Apply, Inv, Stuck;
    if es != [] {
      StepKeeps(s, es[0]);
      StuckStep(s, es[0]);
      StuckForever(Apply(s, es[0]), es[1..]);
    }
  }

  lemma StuckStep(s: State, e: Event)
    requires Inv(s) && Stuck(s) && Guarded(s, e)
    ensures Stuck(Apply(s, e)) && Apply(s, e).delivered == s.delivered
  {
    var g :| g in s.granted && s.read < g;
    assert GrantOk(s, g);
    if e.Rewind? {
      QuietMeans(s);
    }
    assert !s.reader.Cleared?;
    hide RingOk, FlagOk, RewindSafe;
    assert g in Apply(s, e).granted;
  }

  /** The reader goes round its loop at an index that is never written: it never comes to a rewind. */
  predicate Spins(s: State) {
    Stuck(s) && s.read < s.release && (s.reader.Polling? || s.reader.Slot? || s.reader.GotCode? || s.reader.GotBoth?)
  }

  /** So it delivers nothing ever again, whatever is asked of rewinds. */
  lemma {:induction false} SpinsForever(s: State, es: seq<Event>)
    requires Inv(s) && Spins(s) && Run(s, es, false)
    ensures Spins(After(s, es, false)) && After(s, es, false).delivered == s.delivered
    decreases |es|
  {
    hide Guarded, Enabled, Apply, Inv, Spins;
    if es != [] {
      SpinStep(s, es[0]);
      StepKeeps(s, es[0]);
      SpinsForever(Apply(s, es[0]), es[1..]);
    }
  }

  lemma SpinStep(s: State, e: Event)
    requires Inv(s) && Spins(s) && Enabled(s, e)
    ensures Guarded(s, e) && Spins(Apply(s, e)) && Apply(s, e).delivered == s.delivered
  {
    StuckStep(s, e);
    hide Stuck;
    assert s.read !in s.granted && s.released <= s.granted.Keys by { assert Stuck(s); }
  }

  /** A reader told that something is released finds the code of its next message, unless a sender
      is still at work on that index or the ring is stuck. */
  lemma FindsNext(s: State)
    requires Inv(s) && s.read < s.release && s.reader.Slot?
    ensures Stuck(s) ==> s.code[s.read % SLOTS] == NIL
    ensures s.code[s.read % SLOTS] == NIL && !Stuck(s) ==>
              exists i :: 0 <= i < |s.senders| && (s.senders[i].Waits() || s.senders[i].Held()) && s.senders[i].next == s.read
    ensures s.code[s.read % SLOTS] != NIL ==> s.read in s.granted && s.code[s.read % SLOTS] == s.granted[s.read].m.code
  {
    assert SlotOk(s, s.read);
    if s.read in s.granted {
      assert GrantOk(s, s.read);
    } else if forall g :: g in s.granted ==> g <= s.read {
      assert forall g :: g in s.released ==> g < s.read;
      BelowAll(s.released, s.read);
    }
  }

  /** Sender i, about to decide, sees at most 255 indices unread. */
  predicate SeesRoom(s: State, i: nat)
    requires Enabled(s, Decide(i))
  {
    s.senders[i].next - s.senders[i].seen <= SLOTS - 1
  }

  /** A run in which every sender sees room: nothing is asked of rewinds. */
  predicate Calm(s: State, es: seq<Event>)
    decreases |es|
  {
    es == [] || (Enabled(s, es[0]) && (es[0].Decide? ==> SeesRoom(s, es[0].i)) && Calm(Apply(s, es[0]), es[1..]))
  }

  predicate WaitsFor(s: State, i: nat, j: nat)
    requires i < |s.senders|
  {
    s.senders[i].Waits() && s.senders[i].next == j
  }

  /** Index j is on its way to be granted. */
  predicate Pending(s: State, j: nat) {
    exists i :: 0 <= i < |s.senders| && WaitsFor(s, i, j)
  }

  /** No index was given up, and none will be: the flag is not set. */
  predicate Dense(s: State) {
    && !s.full && !s.reader.Rewinding? && !s.reader.Closing()
    && (forall i :: 0 <= i < |s.senders| ==> !s.senders[i].Over?)
    && forall j :: 0 <= j < s.reserve ==> j in s.granted || Pending(s, j)
  }

  lemma StillPending(s: State, s': State, j: nat, i: nat)
    requires Pending(s, j) && i < |s.senders| == |s'.senders| && s'.senders == s.senders[i := s'.senders[i]]
    requires WaitsFor(s, i, j) ==> WaitsFor(s', i, j)
    ensures Pending(s', j)
  {
    var k :| 0 <= k < |s.senders| && WaitsFor(s, k, j);
    assert WaitsFor(s', k, j);
  }

  lemma DenseStep(s: State, e: Event)
    requires Dense(s) && Enabled(s, e) && (e.Decide? ==> SeesRoom(s, e.i))
    ensures Dense(Apply(s, e)) && Guarded(s, e)
  {
    var s' := Apply(s, e);
    if s'.senders == s.senders {
      forall j | 0 <= j < s'.reserve ensures j in s'.granted || Pending(s', j) {
        if j !in s'.granted {
          var k :| 0 <= k < |s.senders| && WaitsFor(s, k, j);
          assert WaitsFor(s', k, j);
        }
      }
    } else {
      var i := e.i;
      assert s'.senders == s.senders[i := s'.senders[i]];
      forall j | 0 <= j < s'.reserve ensures j in s'.granted || Pending(s', j) {
        if e.FetchAdd? && j == s.reserve {
          assert WaitsFor(s', i, j);
        } else if j !in s'.granted {
          StillPending(s, s', j, i);
        }
      }
    }
  }

  lemma DenseNotStuck(s: State)
    requires Inv(s) && Dense(s)
    ensures !Stuck(s)
  {
    forall g | g in s.granted ensures g < s.reserve { assert GrantOk(s, g); }
    assert s.read < s.reserve ==> s.read in s.granted || Pending(s, s.read);
  }

  lemma {:induction false} CalmStaysDense(s: State, es: seq<Event>)
    requires Inv(s) && Dense(s) && Calm(s, es)
    ensures Run(s, es, true) && Run(s, es, false) && After(s, es, false) == After(s, es, true)
    ensures Inv(After(s, es, true)) && Dense(After(s, es, true))
    decreases |es|
  {
    hide Guarded, Enabled, Apply, Inv, Dense;
    if es != [] {
      DenseStep(s, es[0]);
      StepKeeps(s, es[0]);
      CalmStaysDense(Apply(s, es[0]), es[1..]);
    }
  }

  /** As long as every sender sees at most 255 indices unread, the guard the code lacks is not needed:
      the flag is never set, nobody gives up an index, the reader never rewinds, the ring never gets
      stuck, and what is delivered is what was granted, in order. */
  lemma CalmRun(n: nat, es: seq<Event>)
    requires Calm(Initial(n), es)
    ensures Run(Initial(n), es, false)
    ensures var t := After(Initial(n), es, false);
            && Inv(t) && Dense(t) && !Stuck(t)
            && |t.delivered| == t.read
            && forall j :: 0 <= j < t.read ==> j in t.granted && t.delivered[j] == t.granted[j].m
  {
    InitialOk(n);
    CalmStaysDense(Initial(n), es);
    var t := After(Initial(n), es, false);
    DenseNotStuck(t);
    forall j | 0 <= j < t.read ensures j < |t.delivered| && j in t.granted && t.delivered[j] == t.granted[j].m {
      ReadWasGranted(t, j);
    }
    assert |t.delivered| == t.read;
  }

  /** With one sender: at most the last index reserved was given up, until the rewind takes it back. */
  predicate LoneDense(s: State) {
    && |s.senders| == 1
    && (s.senders[0].Waits() ==> s.senders[0].next == s.reserve - 1)
    && forall j :: 0 <= j < s.reserve ==> LoneIndex(s, j)
  }

  predicate LoneIndex(s: State, j: nat)
    requires |s.senders| == 1
  {
    || j in s.granted || WaitsFor(s, 0, j)
    || (j == s.reserve - 1 && (s.senders[0].Over? || (s.full && !s.reader.Closing())))
  }

  lemma LoneStep(s: State, e: Event)
    requires Inv(s) && LoneDense(s) && Guarded(s, e)
    ensures LoneDense(Apply(s, e))
  {
    var s' := Apply(s, e);
    LoneWaits(s, e);
    hide Apply, RingOk, LoneIndex;
    forall j | 0 <= j < s'.reserve ensures LoneIndex(s', j) {
      if e.Rewind? {
        LoneIndexRewound(s, j);
      } else {
        LoneIndexStep(s, e, j);
      }
    }
  }

  lemma LoneWaits(s: State, e: Event)
    requires FlagOk(s) && LoneDense(s) && Guarded(s, e)
    ensures var s' := Apply(s, e); |s'.senders| == 1 && (s'.senders[0].Waits() ==> s'.senders[0].next == s'.reserve - 1)
  {
  }

  lemma LoneIndexRewound(s: State, j: nat)
    requires Inv(s) && |s.senders| == 1 && Guarded(s, Rewind) && j < Apply(s, Rewind).reserve
    ensures LoneIndex(Apply(s, Rewind), j)
  {
    QuietMeans(s);
  }

  lemma LoneIndexStep(s: State, e: Event, j: nat)
    requires FlagOk(s) && LoneDense(s) && Enabled(s, e) && !e.Rewind? && j < Apply(s, e).reserve
    ensures LoneIndex(Apply(s, e), j)
  {
    assert j < s.reserve ==> LoneIndex(s, j);
  }

  lemma {:induction false} LoneStaysDense(s: State, es: seq<Event>)
    requires Inv(s) && LoneDense(s) && Run(s, es, true)
    ensures Inv(After(s, es, true)) && LoneDense(After(s, es, true))
    decreases |es|
  {
    hide Guarded, Enabled, Apply, Inv, LoneDense;
    if es != [] {
      LoneStep(s, es[0]);
      StepKeeps(s, es[0]);
      LoneStaysDense(Apply(s, es[0]), es[1..]);
    }
  }

  /** A single sender never gets the ring stuck, full or not. */
  lemma LoneNeverStuck(es: seq<Event>)
    requires Run(Initial(1), es, true)
    ensures !Stuck(After(Initial(1), es, true))
  {
    InitialOk(1);
    LoneStaysDense(Initial(1), es);
    var t := After(Initial(1), es, true);
    forall g | g in t.granted ensures g < t.reserve { assert GrantOk(t, g); }
    assert t.read < t.reserve ==> LoneIndex(t, t.read);
  }

  /** A sender at rest holds nothing and waits for nothing. */
  predicate Rests(p: Sender) { p.Idle? || p.Checked? || p.Over? }

  /** Sender k is at rest, nobody else moved, and the flag is not set. */
  ghost predicate Rested(s: State, t: State, k: nat) {
    && Reaches(s, t, true) && Inv(t) && !t.full && k < |t.senders| == |s.senders|
    && t.senders == s.senders[k := t.senders[k]] && Rests(t.senders[k]) && (s.senders[k].Over? ==> t.senders[k].Over?)
  }

  lemma BringToRest(s: State, k: nat) returns (t: State)
    requires Inv(s) && !s.full && k < |s.senders|
    ensures Rested(s, t, k)
  {
    hide Inv, Reaches;
    Stay(s, true);
    t := s;
    if s.senders[k].Waits() {
      t := BringToDecision(s, k);
    }
    if t.senders[k].Held() {
      var u := BringToRelease(t, k);
      Join(s, t, u, true);
      t := u;
    }
  }

  lemma BringToDecision(s: State, k: nat) returns (t: State)
    requires Inv(s) && !s.full && k < |s.senders| && s.senders[k].Waits()
    ensures Reaches(s, t, true) && Inv(t) && !t.full && |t.senders| == |s.senders|
    ensures t.senders == s.senders[k := t.senders[k]] && (t.senders[k].Over? || t.senders[k].Reserved?)
  {
    hide Inv, Reaches;
    Stay(s, true);
    t := s;
    if t.senders[k].Added? {
      t := Then(s, t, LoadRead(k), true);
    }
    t := Then(s, t, Decide(k), true);
    ReachesSafe(s, t);
    assert t.senders == s.senders[k := t.senders[k]];
  }

  lemma BringToRelease(s: State, k: nat) returns (t: State)
    requires Inv(s) && !s.full && k < |s.senders| && s.senders[k].Held()
    ensures Reaches(s, t, true) && Inv(t) && !t.full && t.senders == s.senders[k := Idle]
  {
    assert SenderOk(s, k);
    hide Inv, Reaches;
    t := Completes(s, k);
    ReachesSafe(s, t);
  }

  lemma {:induction false} BringAllToRest(s: State, k: nat, i: nat) returns (t: State)
    requires Inv(s) && !s.full && k <= |s.senders| && i < |s.senders| && s.senders[i].Over?
    requires forall l :: k <= l < |s.senders| ==> Rests(s.senders[l])
    ensures Reaches(s, t, true) && Inv(t) && !t.full && |t.senders| == |s.senders| && t.senders[i].Over?
    ensures forall l :: 0 <= l < |t.senders| ==> Rests(t.senders[l])
    decreases k
  {
    hide Inv, Reaches;
    t := s;
    Stay(s, true);
    if k > 0 {
      var u := BringToRest(s, k - 1);
      t := BringAllToRest(u, k - 1, i);
      Join(s, u, t, true);
    }
  }

  /** How far the reader of a ring not full is from the top of its loop. */
  function StepsToPoll(r: Reader): nat {
    match r
    case Slot => 5
    case GotCode(_) => 4
    case GotBoth(_, _) => 3
    case Cleared(_, _) => 2
    case Tail => 1
    case _ => 0
  }

  lemma {:induction false} ComesToPoll(s: State) returns (t: State)
    requires Inv(s) && !s.full
    ensures Reaches(s, t, true) && Inv(t) && t.reader.Polling? && !t.full && t.senders == s.senders
    decreases StepsToPoll(s.reader)
  {
    assert Sized(s) && FlagOk(s);
    hide Inv, Reaches;
    Stay(s, true);
    t := s;
    if !s.reader.Polling? {
      var e := match s.reader
        case Slot => LoadCode
        case GotCode(_) => LoadPtr
        case GotBoth(_, _) => Take
        case Cleared(_, _) => Advance
        case _ => CheckFull;
      var u := Then(s, s, e, true);
      StepKeeps(s, e);
      t := ComesToPoll(u);
      Join(s, u, t, true);
    }
  }

  predicate AllRest(s: State) {
    forall i :: 0 <= i < |s.senders| ==> Rests(s.senders[i])
  }

  /** The reader takes all there is. */
  lemma {:induction false} Drains(s: State) returns (t: State)
    requires Inv(s) && !s.full && s.reader.Polling? && AllRest(s)
    ensures Reaches(s, t, true) && Inv(t) && t.reader.Polling? && !t.full && t.senders == s.senders
    ensures t.read !in t.granted
    decreases s.release - s.read
  {
    RestMeans(s);
    hide Inv, Reaches, AllRest;
    t := s;
    Stay(s, true);
    if s.read in s.granted {
      NextIsThere(s);
      var u := ReceiveRuns(s, true);
      ReachesSafe(s, u);
      assert AllRest(u);
      RestMeans(u);
      t := Drains(u);
      Join(s, u, t, true);
    }
  }

  lemma RestMeans(s: State)
    requires Inv(s) && AllRest(s)
    ensures s.read <= s.release
    ensures s.read in s.granted ==> s.read in s.coded && s.read < s.release
    ensures s.read !in s.granted ==>
              || (s.read == s.release && forall g :: g in s.granted ==> g < s.read)
              || (s.read < s.release && Stuck(s))
  {
    QuietMeans(s);
    if s.read == s.release {
      assert s.read !in s.granted;
    } else if s.read !in s.granted && forall g :: g in s.granted ==> g <= s.read {
      BelowAll(s.released, s.read);
    }
  }

  /** One of the two that will leave a hole gets ready. */
  lemma LooksAgain(s: State, j: nat) returns (t: State)
    requires Inv(s) && !s.full && s.reader.Polling? && AllRest(s) && s.read == s.release && j < |s.senders|
    ensures Reaches(s, t, true) && Inv(t) && !t.full && t.reader.Polling? && t.read == t.release == s.read
    ensures |t.senders| == |s.senders| && t.senders == s.senders[j := t.senders[j]] && t.senders[j].Checked?
    ensures t.granted == s.granted
  {
    hide Inv, Reaches;
    Stay(s, true);
    t := s;
    if s.senders[j].Over? {
      t := Then(s, t, SetFull(j), true);
      t := RewindsFrom(s, t);
      var u := Reopens(t);
      Join(s, t, u, true);
      t := u;
    }
    if t.senders[j].Idle? {
      t := Then(s, t, Start(j, Msg(1, 0)), true);
    }
    ReachesSafe(s, t);
    assert t.senders == s.senders[j := t.senders[j]];
  }

  /** The reader finds the ring empty and full, and rewinds. */
  lemma RewindsFrom(s: State, t: State) returns (u: State)
    requires Reaches(s, t, true) && AllRest(t) && t.full && t.reader.Polling? && t.read == t.release
    ensures Reaches(s, u, true) && u == t.(reader := Comparing, reserve := t.read)
  {
    hide Reaches;
    u := Then(s, t, Poll, true);
    u := Then(s, u, CheckFull, true);
    u := Then(s, u, Rewind, true);
  }

  /** From an empty ring: one sender has looked at the flag before the other sets it, and adds to the
      counter between the rewind and the clearing of the flag.  It gives up its index, which is never
      written, and the other takes the next. */
  lemma LeavesHole(s: State, i: nat, j: nat) returns (t: State)
    requires Inv(s) && !s.full && s.reader.Polling? && AllRest(s) && s.read == s.release && s.read !in s.granted
    requires i != j && i < |s.senders| && j < |s.senders| && s.senders[i].Over? && s.senders[j].Checked?
    ensures Reaches(s, t, true) && Spins(t)
  {
    assert Sized(s);
    hide Inv, Reaches, Spins;
    var u := GivesUp(s, i, j);
    t := Then(s, u, Start(i, Msg(1, 0)), true);
    u := SendRuns(t, i, true);
    Join(s, t, u, true);
    HoleSpins(t, i);
    t := u;
  }

  lemma HoleSpins(s: State, i: nat)
    requires Sized(s) && AllRest(s) && i < |s.senders| && s.senders[i].Checked? && s.reader.Polling?
    requires s.read !in s.granted && s.read == s.release && s.reserve == s.read + 1
    ensures Spins(Sent(s, i, s.senders[i].m))
  {
    var t := Sent(s, i, s.senders[i].m);
    assert s.read + 1 in t.granted;
    forall k | 0 <= k < |t.senders| ensures !t.senders[k].Waits() { assert Rests(s.senders[k]); }
  }

  lemma GivesUp(s: State, i: nat, j: nat) returns (t: State)
    requires !s.full && s.reader.Polling? && AllRest(s) && s.read == s.release
    requires i != j && i < |s.senders| && j < |s.senders| && s.senders[i].Over? && s.senders[j].Checked?
    ensures Reaches(s, t, true) && t == s.(reserve := s.read + 1, senders := s.senders[i := Idle][j := Idle])
  {
    hide Reaches;
    Stay(s, true);
    t := Then(s, s, SetFull(i), true);
    t := RewindsFrom(s, t);
    t := Then(s, t, FetchAdd(j), true);
    t := Then(s, t, LoadRead(j), true);
    t := Then(s, t, Decide(j), true);
    var u := Reopens(t);
    Join(s, t, u, true);
    t := u;
    assert t.senders == s.senders[i := Idle][j := Idle];
  }

  /** As soon as a sender does see more than 255 indices unread while the flag is not set, and there
      is another sender, the ring can get stuck for good, with every rewind safe. */
  lemma OverrunCanStick(s: State, i: nat) returns (t: State)
    requires Inv(s) && Enabled(s, Decide(i)) && !s.full && !SeesRoom(s, i) && |s.senders| >= 2
    ensures Reaches(Apply(s, Decide(i)), t, true) && Inv(t) && Spins(t)
  {
    var s1 := Apply(s, Decide(i));
    StepKeeps(s, Decide(i));
    hide Inv, Reaches;
    var s2 := BringAllToRest(s1, |s1.senders|, i);
    var s3 := ComesToPoll(s2);
    Join(s1, s2, s3, true);
    t := Drains(s3);
    Join(s1, s3, t, true);
    RestMeans(t);
    if t.read == t.release {
      var j := if i == 0 then 1 else 0;
      var u := LooksAgain(t, j);
      Join(s1, t, u, true);
      t := LeavesHole(u, i, j);
      Join(s1, u, t, true);
    }
    ReachesSafe(s1, t);
  }

  /** And that can happen from the empty ring on. */
  lemma GuardedRingGetsStuck() returns (t: State)
    ensures Reaches(Initial(2), t, true) && Spins(t)
  {
    hide Reaches, Inv;
    var s0, m := Initial(2), Msg(1, 0);
    InitialOk(2);
    var s := SendsRun(s0, 0, m, SLOTS, true);
    t := Then(s0, s, Start(0, m), true);
    t := Then(s0, t, FetchAdd(0), true);
    t := Then(s0, t, LoadRead(0), true);
    ReachesSafe(s0, t);
    s := Then(s0, t, Decide(0), true);
    var u := OverrunCanStick(t, 0);
    Join(s0, s, u, true);
    t := u;
  }
}
