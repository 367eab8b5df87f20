/** Starting and stopping: the master waits for the manager, the manager for its workers. */
module Shutdown {
  import opened Events

  datatype Runstate = NIL | STARTING | RUNNING | STOPPING | STOPPED | DEAD

  /** The order in which a process goes through its states. */
  function Rank(r: Runstate): nat {
    match r case NIL => 0 case STARTING => 1 case RUNNING => 2 case STOPPING => 3 case STOPPED => 4 case DEAD => 5
  }

  /** The numbers of the states: what is dead or stopped comes before what has not begun. */
  function Number(r: Runstate): int {
    match r case DEAD => -5 case STOPPED => -4 case NIL => 0 case STARTING => 1 case RUNNING => 2 case STOPPING => 3
  }

  /** Messages are not sent to processes with a lower number than a starting one. */
  predicate Reachable(r: Runstate): (b: bool)
    ensures b <==> Rank(STARTING) <= Rank(r) <= Rank(STOPPING)
  {
    !(Number(r) < Number(STARTING))
  }

  /** Where a process is in its program.  The manager spawns its workers one by one before its
      loop; a worker is leaving its loop from the publication of its stop event on. */
  datatype Place =
    | Unborn
    | Born
    | Starting
    | Forking
    | Spawning(k: nat)
    | Entering
    | Looping
    | Leaving
    | Left
    | Done
    | Failed

  /** How far a stop event has come: its first listener makes the process wait, its last one
      breaks the loop. */
  datatype Progress = Unpublished | At(k: nat) | Delayed(k: nat) | Over

  /** The shared runstates and the places; whether the manager's process is gone; which workers
      the manager told to stop; and the two stop events, with the number of their last
      listener. */
  datatype State = State(
    master: Runstate, masterAt: Place, manager: Runstate, managerAt: Place, gone: bool,
    workers: seq<Runstate>, workersAt: seq<Place>, told: seq<bool>,
    managerStop: Progress, managerPublished: nat, managerLast: nat,
    masterStop: Progress, masterPublished: nat, masterLast: nat)

  /** The workers found stopped are joined and marked dead. */
  function Reaped(ws: seq<Runstate>): seq<Runstate> {
    seq(|ws|, i requires 0 <= i < |ws| => if ws[i].STOPPED? then DEAD else ws[i])
  }

  predicate AllDead(ws: seq<Runstate>) { forall i :: 0 <= i < |ws| ==> ws[i].DEAD? }

  /** A message gets to a worker in the right state if it can be sent: the ring takes it, or there is
      memory to queue it. */
  predicate Gets(ws: seq<Runstate>, sent: seq<bool>, i: nat)
    requires i < |ws|
  {
    Reachable(ws[i]) && i < |sent| && sent[i]
  }

  /** The shutdown message goes to one worker after the other, up to the first that does not
      get it. */
  function Told(ws: seq<Runstate>, sent: seq<bool>): seq<bool> {
    seq(|ws|, i requires 0 <= i < |ws| => forall j :: 0 <= j <= i ==> Gets(ws, sent, j))
  }

  /** The first listener of a stop event delays it as long as somebody is to be waited for. */
  function Waited(over: bool): Progress {
    if over then At(NextAfter(0, Goes).value) else Delayed(NextAfter(0, Delays).value)
  }

  /** A listener between the first and the last may delay too; after the last there is none. */
  function Listened(p: Progress, last: nat, o: Outcome): Progress
    requires p.At? && (o.Goes? || o.Delays?)
  {
    var next := NextAfter(p.k, o).value;
    if o.Delays? then Delayed(next) else if next <= last then At(next) else Over
  }

  /** The manager's first stop listener; it sends only the first time. */
  function ManagerTryStop(s: State, sent: seq<bool>): State {
    var first := s.manager.RUNNING?;
    var ws := Reaped(s.workers);
    s.(manager := if first then STOPPING else s.manager,
       told := if first then Told(s.workers, sent) else s.told,
       workers := ws,
       managerStop := Waited(AllDead(ws)))
  }

  /** The master's first stop listener. */
  function MasterTryStop(s: State): State {
    s.(master := if s.master.RUNNING? then STOPPING else s.master, masterStop := Waited(s.manager.DEAD?))
  }

  datatype Step =
    | MasterStarts
    | MasterRuns
    | Fork
    | MasterEnters
    | MasterFails
    | ManagerStarts
    | ManagerRuns
    | SpawnWorker
    /** The worker could not be initialized: it is never spawned. */
    | SkipWorker
    | ManagerEnters
    | ManagerFails
    | WorkerRuns(i: nat)
    /** The manager's shutdown message arrives. */
    | WorkerHears(i: nat)
    /** Something else stops the worker. */
    | WorkerQuits(i: nat)
    | WorkerFinishes(i: nat)
    /** The manager is to stop; which of its messages can be sent. */
    | StopManager(sent: seq<bool>)
    | ManagerListener(o: Outcome)
    | ResumeManager
    | ManagerLeaves
    | ManagerFinishes
    /** The manager's process ends, in whatever way, and its workers with it. */
    | ManagerDies
    | ReapManager
    | StopMaster
    | MasterListener(o: Outcome)
    | ResumeMaster
    | MasterLeaves
    | MasterFinishes

  /** What may happen next is a matter of where the processes are in their programs. */
  predicate Enabled(s: State, e: Step) {
    match e
    case MasterStarts => s.masterAt.Unborn?
    case MasterRuns => s.masterAt.Starting?
    case Fork => s.masterAt.Forking? && s.managerAt.Unborn?
    case MasterEnters => s.masterAt.Entering?
    case MasterFails => s.masterAt.Starting? || s.masterAt.Forking? || s.masterAt.Entering?
    case ManagerStarts => !s.gone && s.managerAt.Born?
    case ManagerRuns => !s.gone && s.managerAt.Starting?
    case SpawnWorker => !s.gone && s.managerAt.Spawning? && s.managerAt.k < |s.workers| == |s.workersAt|
    case SkipWorker => !s.gone && s.managerAt.Spawning? && s.managerAt.k < |s.workers|
    case ManagerEnters => !s.gone && s.managerAt == Spawning(|s.workers|)
    case ManagerFails => !s.gone && s.managerAt.Spawning?
    case WorkerRuns(i) => !s.gone && i < |s.workersAt| == |s.workers| && s.workersAt[i].Starting?
    case WorkerHears(i) => !s.gone && i < |s.workersAt| == |s.workers| == |s.told| && s.workersAt[i].Looping? && s.told[i]
    case WorkerQuits(i) => !s.gone && i < |s.workersAt| == |s.workers| && s.workersAt[i].Looping?
    case WorkerFinishes(i) => !s.gone && i < |s.workersAt| == |s.workers| && s.workersAt[i].Leaving?
    case StopManager(sent) => !s.gone && s.managerAt.Looping? && |sent| == |s.workers|
    case ManagerListener(o) =>
      !s.gone && s.managerAt.Looping? && s.managerStop.At? && (o.Goes? || (o.Delays? && s.managerStop.k < s.managerLast))
    case ResumeManager => !s.gone && s.managerAt.Looping? && s.managerStop.Delayed?
    case ManagerLeaves => !s.gone && s.managerAt.Looping? && s.managerStop.Over?
    case ManagerFinishes => !s.gone && s.managerAt.Left?
    case ManagerDies => !s.managerAt.Unborn?
    case ReapManager => s.gone && s.masterAt.Looping?
    case StopMaster => s.masterAt.Entering? || s.masterAt.Looping?
    case MasterListener(o) =>
      (s.masterAt.Entering? || s.masterAt.Looping?) && s.masterStop.At? && (o.Goes? || (o.Delays? && s.masterStop.k < s.masterLast))
    case ResumeMaster => s.masterAt.Looping? && s.masterStop.Delayed?
    case MasterLeaves => s.masterAt.Looping? && s.masterStop.Over?
    case MasterFinishes => s.masterAt.Left?
  }

  /** A worker asked to stop looks at its state first. */
  function WorkerStop(s: State, i: nat): State
    requires i < |s.workersAt| == |s.workers|
  {
    if s.workers[i].RUNNING? then s.(workers := s.workers[i := STOPPING], workersAt := s.workersAt[i := Leaving]) else s
  }

  /** Most writes of a runstate do not look at what it was. */
  function Apply(s: State, e: Step): State
    requires Enabled(s, e)
  {
    match e
    case MasterStarts => s.(master := STARTING, masterAt := Starting)
    case MasterRuns => s.(master := RUNNING, masterAt := Forking)
    case Fork => s.(masterAt := Entering, managerAt := Born)
    case MasterEnters => s.(masterAt := Looping)
    case MasterFails => s.(master := DEAD, masterAt := Failed)
    case ManagerStarts => s.(manager := STARTING, managerAt := Starting)
    case ManagerRuns => s.(manager := RUNNING, managerAt := Spawning(0))
    case SpawnWorker =>
      var k := s.managerAt.k;
      s.(workers := s.workers[k := STARTING], workersAt := s.workersAt[k := Starting], managerAt := Spawning(k + 1))
    case SkipWorker => s.(managerAt := Spawning(s.managerAt.k + 1))
    case ManagerEnters => s.(managerAt := Looping)
    case ManagerFails => s.(manager := DEAD, managerAt := Failed)
    case WorkerRuns(i) => s.(workers := s.workers[i := RUNNING], workersAt := s.workersAt[i := Looping])
    case WorkerHears(i) => WorkerStop(s, i)
    case WorkerQuits(i) => WorkerStop(s, i)
    case WorkerFinishes(i) => s.(workers := s.workers[i := STOPPED], workersAt := s.workersAt[i := Done])
    case StopManager(sent) =>
      if s.manager.RUNNING? then ManagerTryStop(s, sent).(managerPublished := s.managerPublished + 1) else s
    case ManagerListener(o) => s.(managerStop := Listened(s.managerStop, s.managerLast, o))
    case ResumeManager =>
      if s.managerStop.k == 0 then ManagerTryStop(s, []) else s.(managerStop := At(s.managerStop.k))
    case ManagerLeaves => s.(managerAt := Left)
    case ManagerFinishes => s.(manager := STOPPED, managerAt := Done)
    case ManagerDies => s.(gone := true)
    case ReapManager => s.(manager := DEAD)
    case StopMaster =>
      if s.master.RUNNING? then MasterTryStop(s).(masterPublished := s.masterPublished + 1) else s
    case MasterListener(o) => s.(masterStop := Listened(s.masterStop, s.masterLast, o))
    case ResumeMaster =>
      if s.masterStop.k == 0 then MasterTryStop(s) else s.(masterStop := At(s.masterStop.k))
    case MasterLeaves => s.(masterAt := Left)
    case MasterFinishes => s.(master := STOPPED, masterAt := Done)
  }

  /** Nothing started; each stop event has at least the first and the last listener. */
  function Initial(workers: nat, managerLast: nat, masterLast: nat): State {
    State(NIL, Unborn, NIL, Unborn, false, seq(workers, _ => NIL), seq(workers, _ => Unborn), seq(workers, _ => false),
          Unpublished, 0, managerLast, Unpublished, 0, masterLast)
  }

  /** What the place of the master says about its runstate. */
  predicate MasterOk(s: State) {
    match s.masterAt
    case Unborn => s.master.NIL? && s.managerAt.Unborn?
    case Starting => s.master.STARTING? && s.managerAt.Unborn?
    case Forking => s.master.RUNNING? && s.managerAt.Unborn?
    case Entering => s.master.RUNNING? || s.master.STOPPING?
    case Looping => s.master.RUNNING? || s.master.STOPPING?
    case Left => s.master.STOPPING? && s.masterStop.Over?
    case Done => s.master.STOPPED? && s.masterStop.Over?
    case Failed => s.master.DEAD?
    case _ => false
  }

  /** What the place of the manager says about its runstate, until its process is gone and the
      master has noticed. */
  predicate ManagerOk(s: State) {
    && (s.gone ==> !s.managerAt.Unborn?)
    && (!s.managerStop.Unpublished? ==> s.managerAt.Looping? || s.managerAt.Left? || s.managerAt.Done?)
    && (s.managerAt.Left? || s.managerAt.Done? ==> s.managerStop.Over?)
    && (s.managerAt.Spawning? ==> s.managerAt.k <= |s.workers|)
    && ((s.gone && s.manager.DEAD?) || RunstateAt(s.managerAt, s.manager))
  }

  predicate RunstateAt(at: Place, r: Runstate) {
    match at
    case Unborn => r.NIL?
    case Born => r.NIL?
    case Starting => r.STARTING?
    case Spawning(_) => r.RUNNING?
    case Looping => r.RUNNING? || r.STOPPING?
    case Left => r.STOPPING?
    case Done => r.STOPPED?
    case Failed => r.DEAD?
    case _ => false
  }

  /** What the place of a worker says about its runstate. */
  predicate WorkerAt(at: Place, r: Runstate) {
    match at
    case Unborn => r.NIL?
    case Starting => r.STARTING?
    case Looping => r.RUNNING?
    case Leaving => r.STOPPING?
    case Done => r.STOPPED? || r.DEAD?
    case _ => false
  }

  /** Workers the manager has not come to are not born. */
  predicate WorkerOk(s: State, i: nat)
    requires i < |s.workers| == |s.workersAt|
  {
    && WorkerAt(s.workersAt[i], s.workers[i])
    && (s.managerAt.Unborn? || s.managerAt.Born? || s.managerAt.Starting? ==> s.workersAt[i].Unborn?)
    && (s.managerAt.Spawning? && s.managerAt.k <= i ==> s.workersAt[i].Unborn?)
  }

  predicate WorkersOk(s: State) {
    |s.workersAt| == |s.workers| && forall i :: 0 <= i < |s.workers| ==> WorkerOk(s, i)
  }

  /** A worker that was told is born. */
  predicate ToldOk(s: State) {
    |s.told| == |s.workersAt| && forall i :: 0 <= i < |s.told| && s.told[i] ==> !s.workersAt[i].Unborn?
  }

  /** A stop event is published once, when its process leaves the running state. */
  predicate StopOk(r: Runstate, p: Progress, published: nat, last: nat) {
    && published == (if p.Unpublished? then 0 else 1)
    && (Rank(r) < Rank(STOPPING) ==> p.Unpublished?)
    && 1 <= last && (p.At? ==> 1 <= p.k <= last) && (p.Delayed? ==> p.k < last)
  }

  /** Past its first listener. */
  predicate Passed(p: Progress) { p.At? || p.Over? || (p.Delayed? && p.k >= 1) }

  predicate StopsOk(s: State) {
    && StopOk(s.manager, s.managerStop, s.managerPublished, s.managerLast)
    && StopOk(s.master, s.masterStop, s.masterPublished, s.masterLast)
    && (Passed(s.managerStop) ==> AllDead(s.workers))
    && (Passed(s.masterStop) ==> s.manager.DEAD?)
  }

  predicate Inv(s: State) {
    MasterOk(s) && ManagerOk(s) && WorkersOk(s) && ToldOk(s) && StopsOk(s)
  }

  predicate Forward(s: State, s': State) {
    && Rank(s.master) <= Rank(s'.master) && Rank(s.manager) <= Rank(s'.manager)
    && |s'.workers| == |s.workers| && forall i :: 0 <= i < |s.workers| ==> Rank(s.workers[i]) <= Rank(s'.workers[i])
  }

  predicate ByMaster(e: Step) {
    || e.MasterStarts? || e.MasterRuns? || e.Fork? || e.MasterEnters? || e.MasterFails? || e.ReapManager?
    || e.StopMaster? || e.MasterListener? || e.ResumeMaster? || e.MasterLeaves? || e.MasterFinishes?
  }

  predicate ByWorker(e: Step) { e.WorkerRuns? || e.WorkerHears? || e.WorkerQuits? || e.WorkerFinishes? }

  /** The master touches no worker, and of the manager only the runstate of its dead process. */
  lemma MasterTouches(s: State, e: Step)
    requires Enabled(s, e) && ByMaster(e)
    ensures var s' := Apply(s, e);
            && s'.workers == s.workers && s'.workersAt == s.workersAt && s'.told == s.told && s'.gone == s.gone
            && s'.managerStop == s.managerStop && s'.managerPublished == s.managerPublished && s'.managerLast == s.managerLast
            && (s'.manager == s.manager || (s'.manager.DEAD? && s.gone))
            && (s'.managerAt == s.managerAt || (s'.managerAt.Born? && s.managerAt.Unborn?))
  {
  }

  /** A worker touches nothing but its own runstate and place. */
  lemma WorkerTouches(s: State, e: Step)
    requires Enabled(s, e) && ByWorker(e)
    ensures var s' := Apply(s, e);
            && e.i < |s.workers| == |s.workersAt| == |s'.workers| == |s'.workersAt|
            && s' == s.(workers := s.workers[e.i := s'.workers[e.i]], workersAt := s.workersAt[e.i := s'.workersAt[e.i]])
  {
  }

  predicate PlacesOk(s: State) { MasterOk(s) && ManagerOk(s) }

  predicate NotBack(s: State, s': State) {
    Rank(s.master) <= Rank(s'.master) && Rank(s.manager) <= Rank(s'.manager)
  }

  lemma PlacesKept(s: State, e: Step)
    requires Inv(s) && Enabled(s, e)
    ensures PlacesOk(Apply(s, e)) && NotBack(s, Apply(s, e))
  {
    hide WorkersOk, ToldOk, AllDead, Reaped, Told;
    if ByMaster(e) {
      MasterPlacesKept(s, e);
    } else if ByWorker(e) {
      WorkerTouches(s, e);
      hide Apply, Enabled;
    } else {
      ManagerPlacesKept(s, e);
    }
  }

  lemma MasterPlacesKept(s: State, e: Step)
    requires PlacesOk(s) && StopsOk(s) && Enabled(s, e) && ByMaster(e)
    ensures PlacesOk(Apply(s, e)) && NotBack(s, Apply(s, e))
  {
    MasterTouches(s, e);
    if e.StopMaster? || e.MasterListener? || e.ResumeMaster? {
      hide AllDead;
    } else {
      hide AllDead, Passed, Waited, Listened;
    }
  }

  lemma ManagerPlacesKept(s: State, e: Step)
    requires PlacesOk(s) && StopsOk(s) && Enabled(s, e) && !ByMaster(e) && !ByWorker(e)
    ensures PlacesOk(Apply(s, e)) && NotBack(s, Apply(s, e))
  {
    hide AllDead, Reaped, Told;
  }

  lemma SameLengths(s: State, e: Step)
    requires Enabled(s, e) && |s.workers| == |s.workersAt| == |s.told|
    ensures |Apply(s, e).workers| == |Apply(s, e).workersAt| == |Apply(s, e).told| == |s.workers|
  {
    hide AllDead;
  }

  /** What a step does to a worker: it keeps its invariant, goes only forward, and once born and
      once dead is so for good. */
  predicate WorkerKept(s: State, s': State, i: nat)
    requires i < |s.workers| == |s.workersAt|
  {
    && |s'.workers| == |s'.workersAt| == |s.workers| && WorkerOk(s', i)
    && Rank(s.workers[i]) <= Rank(s'.workers[i])
    && (s.workers[i].DEAD? ==> s'.workers[i].DEAD?)
    && (!s.workersAt[i].Unborn? ==> !s'.workersAt[i].Unborn?)
  }

  lemma WorkersKept(s: State, e: Step, i: nat)
    requires WorkersOk(s) && Enabled(s, e) && i < |s.workers|
    ensures WorkerKept(s, Apply(s, e), i)
  {
    assert WorkerOk(s, i);
    hide WorkersOk;
    if ByMaster(e) {
      MasterTouches(s, e);
      hide Apply, Enabled;
    } else if ByWorker(e) {
      WorkerWorkersKept(s, e, i);
    } else {
      ManagerWorkersKept(s, e, i);
    }
  }

  lemma WorkerWorkersKept(s: State, e: Step, i: nat)
    requires i < |s.workers| == |s.workersAt| && WorkerOk(s, i) && Enabled(s, e) && ByWorker(e)
    ensures WorkerKept(s, Apply(s, e), i)
  {
  }

  lemma ManagerWorkersKept(s: State, e: Step, i: nat)
    requires i < |s.workers| == |s.workersAt| && WorkerOk(s, i) && Enabled(s, e) && !ByMaster(e) && !ByWorker(e)
    ensures WorkerKept(s, Apply(s, e), i)
  {
    hide AllDead, Told;
  }

  lemma ToldKept(s: State, e: Step)
    requires Inv(s) && Enabled(s, e)
    ensures ToldOk(Apply(s, e))
  {
    hide Apply, Enabled, MasterOk, ManagerOk, StopsOk;
    var s' := Apply(s, e);
    NewlyTold(s, e);
    SameLengths(s, e);
    forall i | 0 <= i < |s'.told| && s'.told[i] ensures !s'.workersAt[i].Unborn? {
      WorkersKept(s, e, i);
      assert WorkerOk(s, i);
      assert s'.told != s.told ==> Reachable(s.workers[i]);
    }
  }

  lemma NewlyTold(s: State, e: Step)
    requires Enabled(s, e)
    ensures var told := Apply(s, e).told;
            told == s.told || (|told| == |s.workers| && forall i :: 0 <= i < |told| && told[i] ==> Reachable(s.workers[i]))
  {
    ToldReached(s.workers, if e.StopManager? then e.sent else []);
    hide Told, AllDead, Reaped;
  }

  lemma ToldReached(ws: seq<Runstate>, sent: seq<bool>)
    ensures forall i :: 0 <= i < |ws| && Told(ws, sent)[i] ==> Reachable(ws[i])
  {
    forall i | 0 <= i < |ws| && Told(ws, sent)[i] ensures Reachable(ws[i]) { assert Gets(ws, sent, i); }
  }

  lemma StopsKept(s: State, e: Step)
    requires Inv(s) && Enabled(s, e)
    ensures StopsOk(Apply(s, e))
  {
    var s' := Apply(s, e);
    if AllDead(s.workers) {
      forall i | 0 <= i < |s'.workers| ensures s'.workers[i].DEAD? { WorkersKept(s, e, i); }
    }
    hide WorkersOk, WorkerOk, ToldOk, Reaped, Told, AllDead;
    if ByMaster(e) {
      MasterStopsKept(s, e);
    } else if ByWorker(e) {
      WorkerTouches(s, e);
      hide Apply, Enabled;
    } else {
      ManagerStopsKept(s, e);
    }
  }

  lemma MasterStopsKept(s: State, e: Step)
    requires PlacesOk(s) && StopsOk(s) && Enabled(s, e) && ByMaster(e)
    ensures StopsOk(Apply(s, e))
  {
    hide AllDead;
  }

  lemma ManagerStopsKept(s: State, e: Step)
    requires PlacesOk(s) && StopsOk(s) && Enabled(s, e) && !ByMaster(e) && !ByWorker(e)
    requires AllDead(s.workers) ==> AllDead(Apply(s, e).workers)
    ensures StopsOk(Apply(s, e))
  {
    hide Told, Reaped, AllDead;
  }

  /** Every process only goes forward, though its writes do not look back. */
  lemma StepKeeps(s: State, e: Step)
    requires Inv(s) && Enabled(s, e)
    ensures Inv(Apply(s, e)) && Forward(s, Apply(s, e))
  {
    hide Apply, Enabled, MasterOk, ManagerOk, WorkerOk, StopsOk;
    var s' := Apply(s, e);
    PlacesKept(s, e);
    ToldKept(s, e);
    StopsKept(s, e);
    SameLengths(s, e);
    forall i | 0 <= i < |s.workers| ensures WorkerOk(s', i) && Rank(s.workers[i]) <= Rank(s'.workers[i]) {
      WorkersKept(s, e, i);
    }
  }

  predicate Run(s: State, es: seq<Step>)
    decreases |es|
  {
    es == [] || (Enabled(s, es[0]) && Run(Apply(s, es[0]), es[1..]))
  }

  function After(s: State, es: seq<Step>): State
    requires Run(s, es)
    decreases |es|
  {
    if es == [] then s else After(Apply(s, es[0]), es[1..])
  }

  lemma {:induction false} RunKeeps(s: State, es: seq<Step>)
    requires Inv(s) && Run(s, es)
    ensures Inv(After(s, es)) && Forward(s, After(s, es))
    decreases |es|
  {
    hide Apply, Enabled, Inv;
    if es != [] {
      StepKeeps(s, es[0]);
      RunKeeps(Apply(s, es[0]), es[1..]);
    }
  }

  lemma InitialOk(workers: nat, managerLast: nat, masterLast: nat)
    requires managerLast >= 1 && masterLast >= 1
    ensures Inv(Initial(workers, managerLast, masterLast))
  {
  }

  /** From the start, whatever happens: each stop event is published at most once, a loop is left
      only when everyone it waits for is dead, the runstates at the assertions of the two listeners
      and of a worker's end are as asserted, and from then on every process only goes forward. */
  lemma StopSafe(workers: nat, managerLast: nat, masterLast: nat, es: seq<Step>, fs: seq<Step>)
    requires managerLast >= 1 && masterLast >= 1
    requires Run(Initial(workers, managerLast, masterLast), es)
    requires Run(After(Initial(workers, managerLast, masterLast), es), fs)
    ensures var t := After(Initial(workers, managerLast, masterLast), es);
            && t.managerPublished <= 1 && t.masterPublished <= 1
            && (t.managerAt.Left? || t.managerAt.Done? ==> AllDead(t.workers))
            && (t.masterAt.Left? || t.masterAt.Done? ==> t.manager.DEAD?)
            && (Enabled(t, ResumeManager) ==> t.manager.STOPPING?)
            && (forall i: nat :: Enabled(t, WorkerFinishes(i)) ==> t.workers[i].STOPPING?)
            && Forward(t, After(t, fs))
  {
    InitialOk(workers, managerLast, masterLast);
    RunKeeps(Initial(workers, managerLast, masterLast), es);
    var t := After(Initial(workers, managerLast, masterLast), es);
    RunKeeps(t, fs);
    forall i: nat | Enabled(t, WorkerFinishes(i)) ensures t.workers[i].STOPPING? { assert WorkerOk(t, i); }
  }

  /** The manager's part of the shared states. */
  class Manager {
    var state: Runstate
    const workers: array<Runstate>
    var told: seq<bool>
    var stop: Progress

    constructor (workers: array<Runstate>)
      ensures this.workers == workers && state == RUNNING && stop == Unpublished
    {
      this.workers, state, stop := workers, RUNNING, Unpublished;
      told := seq(workers.Length, _ => false);
    }

    /** One message to each worker, as long as they get there. */
    method SendWorkers(sent: seq<bool>) returns (all: bool)
      requires |sent| == workers.Length
      modifies this`told
      ensures told == Told(workers[..], sent) && all == forall i :: 0 <= i < workers.Length ==> Gets(workers[..], sent, i)
    {
      all := true;
      told := [];
      var i := 0;
      ghost var ws := workers[..];
      while i < workers.Length
        invariant 0 <= i <= workers.Length && |told| == i
        invariant ws == workers[..]
        invariant all == forall j :: 0 <= j < i ==> Gets(ws, sent, j)
        invariant forall k :: 0 <= k < i ==> told[k] == forall j :: 0 <= j <= k ==> Gets(ws, sent, j)
      {
        all := all && Reachable(workers[i]) && sent[i];
        assert Gets(ws, sent, i) == (Reachable(workers[i]) && sent[i]);
        told := told + [all];
        i := i + 1;
      }
      assert told == Told(workers[..], sent);
    }

    /** The first stop listener; it delays the event until all workers are dead. */
    method TryStop(sent: seq<bool>)
      requires (state.RUNNING? || state.STOPPING?) && |sent| == workers.Length
      modifies this, workers
      ensures forall s: State {:trigger ManagerTryStop(s, sent)} ::
                s.manager == old(state) && s.workers == old(workers[..]) && s.told == old(told) ==>
                ManagerTryStop(s, sent) == s.(manager := state, workers := workers[..], told := told, managerStop := stop)
    {
      if state.RUNNING? {
        state := STOPPING;
        var all := SendWorkers(sent);
      }
      ghost var ws := workers[..];
      var allDead := true;
      var i := 0;
      while i < workers.Length
        invariant 0 <= i <= workers.Length && ws == old(workers[..])
        invariant forall k :: 0 <= k < i ==> workers[k] == Reaped(ws)[k]
        invariant forall k :: i <= k < workers.Length ==> workers[k] == ws[k]
        invariant allDead == forall k :: 0 <= k < i ==> workers[k].DEAD?
        invariant state == STOPPING && told == (if old(state).RUNNING? then Told(ws, sent) else old(told))
      {
        if workers[i].STOPPED? {
          workers[i] := DEAD;
        }
        if !workers[i].DEAD? {
          allDead := false;
        }
        i := i + 1;
      }
      assert workers[..] == Reaped(ws);
      assert allDead == AllDead(workers[..]);
      stop := if allDead then At(1) else Delayed(0);
    }
  }
}
