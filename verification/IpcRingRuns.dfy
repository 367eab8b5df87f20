/** Building runs of the ring, one operation after the other. */
module IpcRingRuns {
  import opened IpcSlots
  import opened IpcRing
  import opened IpcRingSafety

  /** Some run leads from s to t. */
  ghost predicate Reaches(s: State, t: State, guarded: bool) {
    exists es :: Leads(s, es, t, guarded)
  }

  predicate Leads(s: State, es: seq<Event>, t: State, guarded: bool) {
    Run(s, es, guarded) && After(s, es, guarded) == t
  }

  lemma Stay(s: State, guarded: bool)
    ensures Reaches(s, s, guarded)
  {
    assert Leads(s, [], s, guarded);
  }

  lemma OneStep(t: State, e: Event, guarded: bool)
    requires Enabled(t, e) && (guarded ==> Guarded(t, e))
    ensures Leads(t, [e], Apply(t, e), guarded)
  {
    hide Enabled, Guarded, Apply;
    var u := Apply(t, e);
    assert [e][0] == e && [e][1..] == [];
    assert Run(u, [], guarded) && After(u, [], guarded) == u;
    assert Run(t, [e], guarded);
    assert After(t, [e], guarded) == After(Apply(t, e), [e][1..], guarded) == u;
  }

  lemma Join(s: State, t: State, u: State, guarded: bool)
    requires Reaches(s, t, guarded) && Reaches(t, u, guarded)
    ensures Reaches(s, u, guarded)
  {
    hide Run, After;
    var es :| Leads(s, es, t, guarded);
    var fs :| Leads(t, fs, u, guarded);
    RunAppend(s, es, fs, guarded);
    assert Leads(s, es + fs, u, guarded);
  }

  lemma Then(s: State, t: State, e: Event, guarded: bool) returns (u: State)
    requires Reaches(s, t, guarded) && Enabled(t, e) && (guarded ==> Guarded(t, e))
    ensures u == Apply(t, e) && Reaches(s, u, guarded)
  {
    hide Enabled, Guarded, Apply, Leads;
    u := Apply(t, e);
    OneStep(t, e, guarded);
    Join(s, t, u, guarded);
  }

  lemma ReachesSafe(s: State, t: State)
    requires Inv(s) && Reaches(s, t, true)
    ensures Inv(t)
  {
    hide Inv;
    var es :| Leads(s, es, t, true);
    RunSafe(s, es);
  }

  lemma {:induction false} RunUnguarded(s: State, es: seq<Event>)
    requires Run(s, es, true)
    ensures Run(s, es, false) && After(s, es, false) == After(s, es, true)
    decreases |es|
  {
    hide Guarded, Enabled, Apply;
    if es != [] {
      RunUnguarded(Apply(s, es[0]), es[1..]);
    }
  }

  lemma Unguarded(s: State, t: State)
    requires Reaches(s, t, true)
    ensures Reaches(s, t, false)
  {
    hide Run, After;
    var es :| Leads(s, es, t, true);
    RunUnguarded(s, es);
    assert Leads(s, es, t, false);
  }

  predicate Sized(s: State) { |s.code| == SLOTS && |s.ptr| == SLOTS }

  /** Has looked at the flag, or has yet to. */
  predicate Ready(p: Sender) { p.Idle? || (p.Checked? && p.m.code != NIL) }

  /** What is left after one whole send into a ring with room, by a sender past its look at the
      flag. */
  function Sent(s: State, i: nat, m: Msg): State
    requires Sized(s) && i < |s.senders|
  {
    var n := s.reserve;
    s.(reserve := n + 1, release := s.release + 1, senders := s.senders[i := Idle],
       ptr := s.ptr[n % SLOTS := m.ptr], code := s.code[n % SLOTS := m.code],
       granted := s.granted[n := Grant(m, i)], coded := s.coded + {n}, released := s.released + {n})
  }

  predicate Room(s: State, i: nat) {
    Sized(s) && i < |s.senders| && !s.full && s.reserve - s.read <= SLOTS - 1
  }

  lemma SendRuns(s: State, i: nat, guarded: bool) returns (t: State)
    requires Room(s, i) && s.senders[i].Checked?
    ensures t == Sent(s, i, s.senders[i].m) && Reaches(s, t, guarded)
  {
    hide Reaches;
    Stay(s, guarded);
    t := Then(s, s, FetchAdd(i), guarded);
    t := Then(s, t, LoadRead(i), guarded);
    t := Then(s, t, Decide(i), guarded);
    t := Then(s, t, SetPtr(i), guarded);
    t := Then(s, t, SetCode(i), guarded);
    t := Then(s, t, Release(i), guarded);
    assert t.senders == Sent(s, i, s.senders[i].m).senders;
  }

  /** The sender looks at the flag, unless it has already. */
  lemma Looks(s: State, i: nat, m: Msg, guarded: bool) returns (t: State)
    requires i < |s.senders| && Ready(s.senders[i]) && !s.full && m.code != NIL
    ensures Reaches(s, t, guarded) && t == s.(senders := t.senders)
    ensures |t.senders| == |s.senders| && t.senders == s.senders[i := t.senders[i]]
    ensures t.senders[i].Checked? && t.senders[i].m.code != NIL
    ensures s.senders[i].Idle? ==> t.senders[i].m == m
  {
    hide Reaches;
    Stay(s, guarded);
    t := s;
    if s.senders[i].Idle? {
      t := Then(s, s, Start(i, m), guarded);
    }
  }

  /** What k sends in a row leave behind. */
  ghost predicate SentMany(s: State, t: State, k: nat) {
    && t.reserve == s.reserve + k && t.release == s.release + k
    && t.read == s.read && t.full == s.full && t.reader == s.reader && t.delivered == s.delivered
    && s.granted.Keys <= t.granted.Keys && s.coded <= t.coded && Sized(t)
    && forall j :: s.reserve <= j < s.reserve + k ==> j in t.coded
  }

  lemma {:induction false} SendsRun(s: State, i: nat, m: Msg, k: nat, guarded: bool) returns (t: State)
    requires Sized(s) && i < |s.senders| && Ready(s.senders[i]) && !s.full && m.code != NIL
    requires s.reserve + k <= s.read + SLOTS
    ensures Reaches(s, t, guarded) && SentMany(s, t, k)
    ensures |t.senders| == |s.senders| && t.senders == s.senders[i := t.senders[i]] && Ready(t.senders[i])
    ensures s.senders[i].Idle? ==> t.senders == s.senders
    decreases k
  {
    hide Reaches;
    t := s;
    Stay(s, guarded);
    if k > 0 {
      var s1 := Looks(s, i, m, guarded);
      var s2 := SendRuns(s1, i, guarded);
      Join(s, s1, s2, guarded);
      t := SendsRun(s2, i, m, k - 1, guarded);
      Join(s, s2, t, guarded);
    }
  }

  /** What k receives in a row leave behind. */
  ghost predicate ReceivedMany(s: State, t: State, k: nat) {
    && t.reserve == s.reserve && t.release == s.release && t.read == s.read + k
    && t.full == s.full && t.reader == s.reader && t.senders == s.senders
    && t.granted == s.granted && t.coded == s.coded && t.ptr == s.ptr && |t.code| == |s.code|
  }

  lemma NextIsThere(s: State)
    requires Inv(s) && s.reader.Polling? && s.read in s.coded
    ensures Sized(s) && s.code[s.read % SLOTS] != NIL
  {
    assert SlotOk(s, s.read) && GrantOk(s, s.read);
  }

  lemma ReceiveRuns(s: State, guarded: bool) returns (t: State)
    requires Sized(s) && s.reader.Polling? && s.read < s.release && s.code[s.read % SLOTS] != NIL
    ensures Reaches(s, t, guarded) && ReceivedMany(s, t, 1)
  {
    hide Reaches;
    Stay(s, guarded);
    t := Then(s, s, Poll, guarded);
    t := Then(s, t, LoadCode, guarded);
    t := Then(s, t, LoadPtr, guarded);
    t := Then(s, t, Take, guarded);
    t := Then(s, t, Advance, guarded);
  }

  lemma {:induction false} ReceivesRun(s: State, k: nat) returns (t: State)
    requires Inv(s) && s.reader.Polling? && s.read + k <= s.release
    requires forall j :: s.read <= j < s.read + k ==> j in s.coded
    ensures Reaches(s, t, true) && ReceivedMany(s, t, k) && Inv(t)
    decreases k
  {
    hide Inv, Reaches;
    t := s;
    Stay(s, true);
    if k > 0 {
      NextIsThere(s);
      var s1 := ReceiveRuns(s, true);
      ReachesSafe(s, s1);
      t := ReceivesRun(s1, k - 1);
      Join(s, s1, t, true);
    }
  }

  /** A sender that holds an index writes to its slot and releases it. */
  lemma Completes(s: State, i: nat) returns (t: State)
    requires Sized(s) && i < |s.senders| && s.senders[i].Held() && (s.senders[i].CodeSet? ==> s.senders[i].next in s.coded)
    ensures Reaches(s, t, true) && Sized(t)
    ensures t == s.(senders := s.senders[i := Idle], release := s.release + 1, ptr := t.ptr, code := t.code,
                    coded := s.coded + {s.senders[i].next}, released := s.released + {s.senders[i].next})
  {
    hide Reaches;
    Stay(s, true);
    t := s;
    if t.senders[i].Reserved? {
      t := Then(s, t, SetPtr(i), true);
    }
    if t.senders[i].PtrSet? {
      t := Then(s, t, SetCode(i), true);
    }
    assert t.coded == s.coded + {s.senders[i].next};
    t := Then(s, t, Release(i), true);
    assert t.senders == s.senders[i := Idle];
  }

  /** The reader goes from its rewind to the opening of the ring. */
  lemma Reopens(s: State) returns (t: State)
    requires s.reader.Comparing?
    ensures Reaches(s, t, true) && t == s.(reader := Polling, full := false)
  {
    hide Reaches;
    Stay(s, true);
    t := Then(s, s, LoadReserve, true);
    t := Then(s, t, LoadRelease, true);
    t := Then(s, t, Unfill, true);
  }
}
