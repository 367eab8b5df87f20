/** The ring buffer between processes, one atomic operation at a time: any number of senders,
    one reader. */
module IpcRing {
  import opened IpcSlots
  import opened Ranges

  datatype Msg = Msg(code: nat, ptr: nat)

  /** Where a sender is in reserving an index and writing to its slot.  It waits from its
      fetch-and-add until its index is granted or given up, and holds the index from then
      until the release.  Waiting, it is open unless it has seen that there is no room: then
      it can only give up. */
  datatype Sender =
    | Idle
    | Checked(m: Msg)
    | Added(m: Msg, next: nat)
    | Loaded(m: Msg, next: nat, seen: nat)
    | Over
    | Reserved(m: Msg, next: nat)
    | PtrSet(m: Msg, next: nat)
    | CodeSet(m: Msg, next: nat)
  {
    predicate Waits() { Added? || Loaded? }
    predicate Open() { Added? || (Loaded? && next - seen < SLOTS) }
    predicate Held() { Reserved? || PtrSet? || CodeSet? }
    predicate Busy() { Open() || Held() }
  }

  datatype Reader =
    | Polling
    | Slot
    | GotCode(c: nat)
    | GotBoth(c: nat, p: nat)
    | Cleared(c: nat, p: nat)
    | Tail
    | Rewinding
    | Comparing
    | Compared(r: nat)
    | Unfilling
  {
    predicate Closing() { Comparing? || Compared? || Unfilling? }
  }

  datatype Grant = Grant(m: Msg, owner: nat)

  /** The shared buffer and everyone's place in it.  The last four fields are history: which
      index was granted for which message, which of these have their code written, which are
      released, and what the reader passed on. */
  datatype State = State(
    reserve: nat, release: nat, read: nat, full: bool,
    code: seq<nat>, ptr: seq<nat>,
    senders: seq<Sender>, reader: Reader,
    granted: map<nat, Grant>, coded: set<nat>, released: set<nat>, delivered: seq<Msg>)

  /** One atomic operation by sender i or by the reader. */
  datatype Event =
    | Start(i: nat, m: Msg)
    | FetchAdd(i: nat)
    | LoadRead(i: nat)
    | Decide(i: nat)
    | SetFull(i: nat)
    | SetPtr(i: nat)
    | SetCode(i: nat)
    | Release(i: nat)
    | Poll
    | LoadCode
    | LoadPtr
    | Take
    | Advance
    | CheckFull
    | Rewind
    /** The assertion after the rewind compares the two counters it loads. */
    | LoadReserve
    | LoadRelease
    | Unfill

  predicate Enabled(s: State, e: Event) {
    match e
    case Start(i, m) => i < |s.senders| && s.senders[i].Idle? && m.code != NIL
    case FetchAdd(i) => i < |s.senders| && s.senders[i].Checked?
    case LoadRead(i) => i < |s.senders| && s.senders[i].Added?
    case Decide(i) => i < |s.senders| && s.senders[i].Loaded?
    case SetFull(i) => i < |s.senders| && s.senders[i].Over?
    case SetPtr(i) => i < |s.senders| && s.senders[i].Reserved? && |s.ptr| == SLOTS
    case SetCode(i) => i < |s.senders| && s.senders[i].PtrSet? && |s.code| == SLOTS
    case Release(i) => i < |s.senders| && s.senders[i].CodeSet?
    case Poll => s.reader.Polling?
    case LoadCode => s.reader.Slot? && |s.code| == SLOTS
    case LoadPtr => s.reader.GotCode? && |s.ptr| == SLOTS
    case Take => s.reader.GotBoth? && |s.code| == SLOTS
    case Advance => s.reader.Cleared?
    case CheckFull => s.reader.Tail?
    case Rewind => s.reader.Rewinding?
    case LoadReserve => s.reader.Comparing?
    case LoadRelease => s.reader.Compared?
    case Unfill => s.reader.Unfilling?
  }

  function Goes(s: State, i: nat, to: Sender): State
    requires i < |s.senders|
  {
    s.(senders := s.senders[i := to])
  }

  /** Runs on the sender's side: ipc_reserve_write_index, the writes of ipc_send_direct and
      ipc_release_write_index.  On the reader's: ipc_receive. */
  function Apply(s: State, e: Event): State
    requires Enabled(s, e)
  {
    match e
    case Start(i, m) =>
      if s.full then s else Goes(s, i, Checked(m))
    case FetchAdd(i) =>
      Goes(s, i, Added(s.senders[i].m, s.reserve)).(reserve := s.reserve + 1)
    case LoadRead(i) =>
      Goes(s, i, Loaded(s.senders[i].m, s.senders[i].next, s.read))
    case Decide(i) =>
      var p := s.senders[i];
      if s.full then Goes(s, i, Idle)
      else if p.next - p.seen > SLOTS - 1 then Goes(s, i, Over)
      else Goes(s, i, Reserved(p.m, p.next)).(granted := s.granted[p.next := Grant(p.m, i)])
    case SetFull(i) =>
      Goes(s, i, Idle).(full := true)
    case SetPtr(i) =>
      var p := s.senders[i];
      Goes(s, i, PtrSet(p.m, p.next)).(ptr := s.ptr[p.next % SLOTS := p.m.ptr])
    case SetCode(i) =>
      var p := s.senders[i];
      Goes(s, i, CodeSet(p.m, p.next)).(code := s.code[p.next % SLOTS := p.m.code], coded := s.coded + {p.next})
    case Release(i) =>
      Goes(s, i, Idle).(release := s.release + 1, released := s.released + {s.senders[i].next})
    case Poll =>
      s.(reader := if s.read < s.release then Slot else Tail)
    case LoadCode =>
      s.(reader := GotCode(s.code[s.read % SLOTS]))
    case LoadPtr =>
      s.(reader := GotBoth(s.reader.c, s.ptr[s.read % SLOTS]))
    case Take =>
      if s.reader.c == NIL then s.(reader := Polling)
      else s.(reader := Cleared(s.reader.c, s.reader.p), code := s.code[s.read % SLOTS := NIL])
    case Advance =>
      s.(reader := Polling, read := s.read + 1, delivered := s.delivered + [Msg(s.reader.c, s.reader.p)])
    case CheckFull =>
      s.(reader := if s.full then Rewinding else Polling)
    case Rewind =>
      s.(reader := Comparing, reserve := s.read)
    case LoadReserve =>
      s.(reader := Compared(s.reserve))
    case LoadRelease =>
      s.(reader := Unfilling)
    case Unfill =>
      s.(reader := Polling, full := false)
  }

  /** No sender has an index, or may be granted the one it has: all are before their
      fetch-and-add, or past their release, or bound to give up. */
  predicate Quiet(s: State) {
    forall i :: 0 <= i < |s.senders| ==> !s.senders[i].Busy()
  }

  predicate RewindSafe(s: State) { s.read == s.release && Quiet(s) }

  predicate Guarded(s: State, e: Event) {
    Enabled(s, e) && (e.Rewind? ==> RewindSafe(s))
  }

  /** A run, with the rewind guarded or not. */
  predicate Run(s: State, es: seq<Event>, guarded: bool)
    decreases |es|
  {
    es == [] || (Enabled(s, es[0]) && (guarded ==> Guarded(s, es[0])) && Run(Apply(s, es[0]), es[1..], guarded))
  }

  function After(s: State, es: seq<Event>, guarded: bool): State
    requires Run(s, es, guarded)
    decreases |es|
  {
    if es == [] then s else After(Apply(s, es[0]), es[1..], guarded)
  }

  lemma {:induction false} RunAppend(s: State, es: seq<Event>, fs: seq<Event>, guarded: bool)
    requires Run(s, es, guarded) && Run(After(s, es, guarded), fs, guarded)
    ensures Run(s, es + fs, guarded) && After(s, es + fs, guarded) == After(After(s, es, guarded), fs, guarded)
    decreases |es|
  {
    hide Enabled, Guarded, Apply;
    if es == [] {
      assert es + fs == fs;
    } else {
      RunAppend(Apply(s, es[0]), es[1..], fs, guarded);
      assert (es + fs)[1..] == es[1..] + fs;
    }
  }

  function Initial(n: nat): State {
    State(0, 0, 0, false, seq(SLOTS, _ => NIL), seq(SLOTS, _ => 0), seq(n, _ => Idle), Polling, map[], {}, {}, [])
  }

  /** The counters and the history. */
  ghost predicate LogOk(s: State) {
    && |s.code| == SLOTS && |s.ptr| == SLOTS
    && s.read == |s.delivered| && s.read <= s.release && Counted(s)
    && s.released <= s.coded && s.coded <= s.granted.Keys
    && (forall g :: g in s.granted ==> GrantOk(s, g))
    && (forall j :: 0 <= j < s.read ==> DeliveredOk(s, j))
  }

  predicate Counted(s: State) { |s.released| == s.release }

  /** A granted index is held by its sender until released. */
  predicate GrantOk(s: State, g: nat)
    requires g in s.granted
  {
    && g < s.reserve && g < s.read + SLOTS && s.granted[g].m.code != NIL
    && s.granted[g].owner < |s.senders|
    && (g !in s.released ==>
          && s.senders[s.granted[g].owner].Held() && s.senders[s.granted[g].owner].next == g)
  }

  predicate DeliveredOk(s: State, j: nat)
    requires j < |s.delivered|
  {
    j in s.granted && j in s.coded && s.delivered[j] == s.granted[j].m
  }

  /** A slot of the window holds what was written for its index, if anything was. */
  predicate SlotOk(s: State, j: nat)
    requires |s.code| == SLOTS && |s.ptr| == SLOTS
  {
    if j in s.coded && j in s.granted then
      && s.ptr[j % SLOTS] == s.granted[j].m.ptr
      && s.code[j % SLOTS] == (if j == s.read && s.reader.Cleared? then NIL else s.granted[j].m.code)
    else s.code[j % SLOTS] == NIL
  }

  predicate SenderOk(s: State, i: nat)
    requires i < |s.senders| && |s.ptr| == SLOTS
  {
    match s.senders[i]
    case Idle => true
    case Checked(m) => m.code != NIL
    case Added(m, n) => m.code != NIL && n < s.reserve && n !in s.granted
    case Loaded(m, n, seen) =>
      m.code != NIL && seen <= s.read && (n - seen < SLOTS ==> n < s.reserve && n !in s.granted)
    case Over => true
    case Reserved(m, n) => n in s.granted && s.granted[n] == Grant(m, i) && n !in s.coded
    case PtrSet(m, n) => n in s.granted && s.granted[n] == Grant(m, i) && n !in s.coded && s.ptr[n % SLOTS] == m.ptr
    case CodeSet(m, n) => n in s.granted && s.granted[n] == Grant(m, i) && n in s.coded && n !in s.released
  }

  /** Two senders never wait for a decision about the same index. */
  predicate Apart(s: State, i: nat, k: nat)
    requires i < |s.senders| && k < |s.senders|
  {
    i != k && s.senders[i].Open() && s.senders[k].Open() ==> s.senders[i].next != s.senders[k].next
  }

  predicate ReaderOk(s: State) {
    match s.reader
    case Slot => s.read < s.release
    case GotCode(c) => s.read < s.release && (c != NIL ==> s.read in s.coded && s.read in s.granted && c == s.granted[s.read].m.code)
    case GotBoth(c, p) => s.read < s.release && (c != NIL ==> s.read in s.coded && s.read in s.granted && Msg(c, p) == s.granted[s.read].m)
    case Cleared(c, p) => s.read < s.release && s.read in s.coded && s.read in s.granted && Msg(c, p) == s.granted[s.read].m
    case _ => true
  }

  ghost predicate SlotsOk(s: State)
    requires |s.code| == SLOTS && |s.ptr| == SLOTS
  {
    forall j :: s.read <= j < s.read + SLOTS ==> SlotOk(s, j)
  }

  ghost predicate SendersOk(s: State)
    requires |s.ptr| == SLOTS
  {
    && (forall i :: 0 <= i < |s.senders| ==> SenderOk(s, i))
    && (forall i, k :: 0 <= i < |s.senders| && 0 <= k < |s.senders| ==> Apart(s, i, k))
  }

  /** The reader rewinds only a full ring, and until it opens the ring again nothing is held;
      a lone sender that finds the ring full is idle. */
  predicate FlagOk(s: State) {
    && (s.reader.Rewinding? ==> s.full)
    && (s.reader.Closing() ==>
          && s.full && s.read == s.release && s.read <= s.reserve
          && forall i :: 0 <= i < |s.senders| ==> !s.senders[i].Held())
    && (|s.senders| == 1 && s.full ==> s.senders[0].Idle?)
  }

  ghost predicate RingOk(s: State) {
    LogOk(s) && SlotsOk(s) && SendersOk(s) && ReaderOk(s)
  }

  ghost predicate Inv(s: State) {
    RingOk(s) && FlagOk(s)
  }

  lemma InitialOk(n: nat)
    ensures Inv(Initial(n))
  {
    var s := Initial(n);
    forall j | s.read <= j < s.read + SLOTS ensures SlotOk(s, j) {
    }
  }

  /** Indices of the window with the same slot are the same. */
  lemma SameSlot(read: nat, j: nat, k: nat)
    requires read <= j < read + SLOTS && read <= k < read + SLOTS
    ensures j % SLOTS == k % SLOTS <==> j == k
  {
  }

  /** Indices below next_read were granted, and their codes were written. */
  lemma Unread(s: State, n: nat)
    requires LogOk(s)
    ensures n < s.read ==> n in s.coded && n in s.granted
  {
    assert n < s.read ==> DeliveredOk(s, n);
  }

  /** A set with all the numbers below n, and no more of them, is just these numbers. */
  lemma InitialSegment(a: set<nat>, n: nat)
    requires forall j :: 0 <= j < n ==> j in a
    ensures |a| >= n
    ensures |a| == n ==> forall j :: j in a ==> j < n
  {
    SubsetSize(Range(0, n), a);
  }
}
