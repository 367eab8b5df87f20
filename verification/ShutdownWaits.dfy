/** When the manager, once it is stopping, can stop: the shutdown message goes to each worker at
    most once, and not to those after one that cannot be sent to. */
module ShutdownWaits {
  import opened Events
  import opened Shutdown

  /** Not yet stopping: the worker's stop event has not been published. */
  predicate Early(at: Place) { at.Unborn? || at.Starting? || at.Looping? }

  /** Nothing but the manager's message stops a worker. */
  predicate Obedient(es: seq<Step>) { forall e :: e in es ==> !e.WorkerQuits? }

  predicate Leads(s: State, es: seq<Step>, t: State, obedient: bool) {
    Run(s, es) && After(s, es) == t && (obedient ==> Obedient(es))
  }

  ghost predicate Reaches(s: State, t: State, obedient: bool) {
    exists es :: Leads(s, es, t, obedient)
  }

  lemma ToldStep(s: State, e: Step)
    requires Inv(s) && !s.managerStop.Unpublished? && Enabled(s, e)
    ensures Apply(s, e).told == s.told && !Apply(s, e).managerStop.Unpublished?
  {
    hide AllDead, Told, Reaped, WorkersOk, ToldOk, MasterOk;
  }

  /** After that no worker is ever told. */
  lemma {:induction false} ToldForGood(s: State, es: seq<Step>)
    requires Inv(s) && !s.managerStop.Unpublished? && Run(s, es)
    ensures After(s, es).told == s.told && !After(s, es).managerStop.Unpublished?
    decreases |es|
  {
    hide Apply, Enabled, Inv;
    if es != [] {
      ToldStep(s, es[0]);
      StepKeeps(s, es[0]);
      ToldForGood(Apply(s, es[0]), es[1..]);
    }
  }

  lemma EarlyStep(s: State, e: Step, j: nat)
    requires Inv(s) && Enabled(s, e) && j < |s.workers| && !s.told[j] && Early(s.workersAt[j]) && e != WorkerQuits(j)
    ensures |Apply(s, e).workersAt| == |s.workersAt| && Early(Apply(s, e).workersAt[j])
    ensures s.workersAt[j].Looping? ==> Apply(s, e).workersAt[j].Looping?
  {
    SameLengths(s, e);
    hide AllDead, Told, MasterOk, ToldOk, StopsOk;
    assert WorkerOk(s, j);
  }

  lemma {:induction false} StaysEarly(s: State, es: seq<Step>, j: nat)
    requires Inv(s) && !s.managerStop.Unpublished? && Run(s, es) && WorkerQuits(j) !in es
    requires j < |s.workers| && !s.told[j] && Early(s.workersAt[j])
    ensures |After(s, es).workersAt| == |s.workersAt| && Early(After(s, es).workersAt[j])
    ensures s.workersAt[j].Looping? ==> After(s, es).workersAt[j].Looping?
    decreases |es|
  {
    assert |s.told| == |s.workersAt| == |s.workers|;
    hide Apply, Enabled, Inv;
    if es != [] {
      ToldStep(s, es[0]);
      EarlyStep(s, es[0], j);
      StepKeeps(s, es[0]);
      assert |Apply(s, es[0]).workers| == |s.workers|;
      StaysEarly(Apply(s, es[0]), es[1..], j);
    }
  }

  /** A worker that was not told, and that nothing else stops, goes on as it was; and the manager
      waits for it for ever, and the master for the manager. */
  lemma WaitsForUntold(s: State, es: seq<Step>, j: nat)
    requires Inv(s) && !s.managerStop.Unpublished? && Run(s, es) && WorkerQuits(j) !in es
    requires j < |s.workers| && !s.told[j] && Early(s.workersAt[j])
    ensures var t := After(s, es);
            && t.managerAt.Looping? && t.managerStop == Delayed(0)
            && |t.workers| == |t.workersAt| == |s.workers|
            && Early(t.workersAt[j]) && Rank(t.workers[j]) <= Rank(RUNNING)
            && (s.workersAt[j].Looping? ==> t.workersAt[j].Looping? && t.workers[j].RUNNING?)
            && (!t.gone ==> !t.masterAt.Left? && !t.masterAt.Done?)
  {
    var t := After(s, es);
    ToldForGood(s, es);
    StaysEarly(s, es, j);
    RunKeeps(s, es);
    assert WorkerOk(t, j);
    assert !AllDead(t.workers);
  }

  lemma Stay(s: State)
    ensures Reaches(s, s, true)
  {
    assert Leads(s, [], s, true);
  }

  lemma {:induction false} RunAppends(s: State, es: seq<Step>, fs: seq<Step>)
    requires Run(s, es) && Run(After(s, es), fs)
    ensures Run(s, es + fs) && After(s, es + fs) == After(After(s, es), fs)
    decreases |es|
  {
    hide Enabled, Apply;
    if es == [] {
      assert es + fs == fs;
    } else {
      RunAppends(Apply(s, es[0]), es[1..], fs);
      assert (es + fs)[1..] == es[1..] + fs;
    }
  }

  lemma Join(s: State, t: State, u: State, obedient: bool)
    requires Reaches(s, t, obedient) && Reaches(t, u, obedient)
    ensures Reaches(s, u, obedient)
  {
    var es :| Leads(s, es, t, obedient);
    var fs :| Leads(t, fs, u, obedient);
    RunAppends(s, es, fs);
    assert Leads(s, es + fs, u, obedient);
  }

  lemma OneStep(s: State, e: Step, obedient: bool)
    requires Enabled(s, e) && (obedient ==> !e.WorkerQuits?)
    ensures Reaches(s, Apply(s, e), obedient)
  {
    hide Enabled, Apply;
    var u := Apply(s, e);
    assert [e][0] == e && [e][1..] == [];
    assert Run(u, []) && After(u, []) == u;
    assert Run(s, [e]);
    assert Leads(s, [e], u, obedient);
  }

  lemma Then(s: State, t: State, e: Step, obedient: bool) returns (u: State)
    requires Reaches(s, t, obedient) && Enabled(t, e) && (obedient ==> !e.WorkerQuits?)
    ensures u == Apply(t, e) && Reaches(s, u, obedient)
  {
    hide Reaches, Enabled, Apply;
    u := Apply(t, e);
    OneStep(t, e, obedient);
    Join(s, t, u, obedient);
  }

  lemma ReachesKeeps(s: State, t: State, obedient: bool)
    requires Inv(s) && Reaches(s, t, obedient)
    ensures Inv(t)
  {
    hide Inv;
    var es :| Leads(s, es, t, obedient);
    RunKeeps(s, es);
  }

  /** The manager can leave its loop, workers stopping only when told. */
  ghost predicate CanLeave(s: State) {
    exists t :: Reaches(s, t, true) && t.managerAt.Left?
  }

  /** Told, or on its way out anyway. */
  predicate WillStop(s: State, i: nat)
    requires i < |s.workersAt| == |s.told|
  {
    s.told[i] || s.workersAt[i].Leaving? || s.workersAt[i].Done?
  }

  /** A stopping manager can leave its loop if and only if every worker was told or is on its way
      out. */
  lemma CanLeaveIff(s: State)
    requires Inv(s) && !s.gone && s.managerAt.Looping? && !s.managerStop.Unpublished?
    ensures CanLeave(s) <==> forall i :: 0 <= i < |s.workersAt| ==> WillStop(s, i)
  {
    if forall i :: 0 <= i < |s.workersAt| ==> WillStop(s, i) {
      LeavesWhenTold(s);
    } else {
      var j :| 0 <= j < |s.workersAt| && !WillStop(s, j);
      assert WorkerOk(s, j);
      forall t | Reaches(s, t, true) ensures !t.managerAt.Left? {
        var es :| Leads(s, es, t, true);
        WaitsForUntold(s, es, j);
      }
    }
  }

  /** The worker gets the message, as do all before it. */
  predicate ToldAlong(ws: seq<Runstate>, sent: seq<bool>, i: nat)
    requires i < |ws|
  {
    forall j :: 0 <= j <= i ==> Gets(ws, sent, j)
  }

  /** On its way out before the manager is to stop. */
  predicate Going(r: Runstate) { r.STOPPING? || r.STOPPED? || r.DEAD? }

  /** Seen from where the manager begins to stop: it is told to which workers its messages get, and can
      leave its loop if and only if each worker, and all before it, get the message, or the worker is on
      its way out. */
  lemma CanStopIff(s: State, sent: seq<bool>)
    requires Inv(s) && Enabled(s, StopManager(sent)) && s.manager.RUNNING?
    ensures var t := Apply(s, StopManager(sent));
            && !t.managerStop.Unpublished?
            && |t.told| == |s.workers| && (forall i :: 0 <= i < |s.workers| ==> (t.told[i] <==> ToldAlong(s.workers, sent, i)))
            && (CanLeave(t) <==> forall i :: 0 <= i < |s.workers| ==> ToldAlong(s.workers, sent, i) || Going(s.workers[i]))
  {
    var t := Apply(s, StopManager(sent));
    StepKeeps(s, StopManager(sent));
    CanLeaveIff(t);
    forall i | 0 <= i < |s.workers|
      ensures WillStop(t, i) <==> ToldAlong(s.workers, sent, i) || Going(s.workers[i])
    {
      assert WorkerOk(s, i);
    }
  }

  /** A worker that does not get the message keeps itself and those after it from being told; if one of
      these is at work, the manager can never stop. */
  lemma ToldMissesWorkers(s: State, sent: seq<bool>, i: nat, j: nat)
    requires Inv(s) && Enabled(s, StopManager(sent)) && s.manager.RUNNING?
    requires i <= j < |s.workers| && !Gets(s.workers, sent, i) && (s.workers[j].STARTING? || s.workers[j].RUNNING?)
    ensures var t := Apply(s, StopManager(sent));
            && |t.told| == |s.workers| && (forall k :: i <= k < |s.workers| ==> !t.told[k])
            && !t.managerStop.Unpublished? && !CanLeave(t)
  {
    hide Inv, Apply, Gets, CanLeave;
    CanStopIff(s, sent);
    assert forall k :: i <= k < |s.workers| ==> !ToldAlong(s.workers, sent, k);
    assert !Going(s.workers[j]);
  }

  /** Worker i stops, and nothing else happens. */
  lemma WorkerStops(s: State, i: nat) returns (t: State)
    requires Inv(s) && !s.gone && i < |s.workersAt| && WillStop(s, i)
    ensures Reaches(s, t, true)
    ensures |t.workers| == |t.workersAt| == |s.workers|
    ensures t == s.(workers := s.workers[i := t.workers[i]], workersAt := s.workersAt[i := t.workersAt[i]])
    ensures t.workersAt[i].Done?
  {
    assert WorkerOk(s, i) && (s.told[i] ==> !s.workersAt[i].Unborn?);
    hide Inv, Reaches;
    Stay(s);
    t := s;
    if t.workersAt[i].Starting? {
      t := Then(s, t, WorkerRuns(i), true);
    }
    if t.workersAt[i].Looping? {
      t := Then(s, t, WorkerHears(i), true);
    }
    if t.workersAt[i].Leaving? {
      t := Then(s, t, WorkerFinishes(i), true);
    }
    assert t.workers == s.workers[i := t.workers[i]] && t.workersAt == s.workersAt[i := t.workersAt[i]];
  }

  lemma {:induction false} WorkersStop(s: State, k: nat) returns (t: State)
    requires Inv(s) && !s.gone && k <= |s.workersAt| && forall i :: 0 <= i < |s.workersAt| ==> WillStop(s, i)
    requires forall i :: k <= i < |s.workersAt| ==> s.workersAt[i].Done?
    ensures Reaches(s, t, true) && Inv(t)
    ensures t == s.(workers := t.workers, workersAt := t.workersAt)
    ensures forall i :: 0 <= i < |t.workersAt| ==> t.workersAt[i].Done?
    decreases k
  {
    hide Inv, Reaches;
    t := s;
    Stay(s);
    if k > 0 {
      assert |s.told| == |s.workersAt| by { assert Inv(s); ToldLength(s); }
      var u := WorkerStops(s, k - 1);
      ReachesKeeps(s, u, true);
      forall i | 0 <= i < |u.workersAt| ensures WillStop(u, i) { assert WillStop(s, i); }
      t := WorkersStop(u, k - 1);
      Join(s, u, t, true);
    }
  }

  lemma ToldLength(s: State)
    requires Inv(s)
    ensures |s.told| == |s.workersAt| == |s.workers|
  {
  }

  lemma LeavesWhenTold(s: State)
    requires Inv(s) && !s.gone && s.managerAt.Looping? && !s.managerStop.Unpublished?
    requires forall i :: 0 <= i < |s.workersAt| ==> WillStop(s, i)
    ensures CanLeave(s)
  {
    var t := WorkersStop(s, |s.workersAt|);
    var u := Resumes(t);
    Join(s, t, u, true);
    t := ListenersRun(u);
    Join(s, u, t, true);
    u := Then(s, t, ManagerLeaves, true);
    assert Reaches(s, u, true) && u.managerAt.Left?;
  }

  /** The delayed event goes on: the first listener finds all workers dead. */
  lemma Resumes(s: State) returns (t: State)
    requires Inv(s) && !s.gone && s.managerAt.Looping? && !s.managerStop.Unpublished?
    requires forall i :: 0 <= i < |s.workersAt| ==> s.workersAt[i].Done?
    ensures Reaches(s, t, true) && !t.gone && t.managerAt.Looping?
    ensures t.managerStop.Over? || (t.managerStop.At? && 1 <= t.managerStop.k <= t.managerLast)
  {
    t := s;
    Stay(s);
    if s.managerStop.Delayed? {
      t := Then(s, s, ResumeManager, true);
      StepKeeps(s, ResumeManager);
      if s.managerStop.k == 0 {
        forall i | 0 <= i < |s.workers| ensures Reaped(s.workers)[i].DEAD? { assert WorkerOk(s, i); }
      }
    }
  }

  /** No listener delays any more. */
  lemma {:induction false} ListenersRun(s: State) returns (t: State)
    requires !s.gone && s.managerAt.Looping?
    requires s.managerStop.Over? || (s.managerStop.At? && s.managerStop.k <= s.managerLast)
    ensures Reaches(s, t, true) && !t.gone && t.managerAt.Looping? && t.managerStop.Over?
    decreases if s.managerStop.Over? then 0 else 1 + s.managerLast - s.managerStop.k
  {
    hide Reaches;
    t := s;
    Stay(s);
    if s.managerStop.At? {
      var u := Then(s, s, ManagerListener(Goes), true);
      t := ListenersRun(u);
      Join(s, u, t, true);
    }
  }

  /** From the start to the manager about to spawn its workers. */
  lemma ManagerBorn() returns (t: State)
    ensures var s := Initial(2, 1, 1);
            Reaches(s, t, true) && t == s.(master := RUNNING, masterAt := Entering, manager := RUNNING, managerAt := Spawning(0))
  {
    hide Reaches;
    var s := Initial(2, 1, 1);
    Stay(s);
    t := Then(s, s, MasterStarts, true);
    t := Then(s, t, MasterRuns, true);
    t := Then(s, t, Fork, true);
    t := Then(s, t, ManagerStarts, true);
    t := Then(s, t, ManagerRuns, true);
  }

  /** It happens: the first worker could not be initialized, so the second is never told, and the
      manager can never stop. */
  lemma SkippedWorkerHangs() returns (t: State)
    ensures Reaches(Initial(2, 1, 1), t, true)
    ensures t.managerAt.Looping? && !t.gone && !t.managerStop.Unpublished? && t.workersAt == [Unborn, Looping]
    ensures !CanLeave(t)
  {
    hide Reaches, CanLeave, Inv;
    var s := Initial(2, 1, 1);
    InitialOk(2, 1, 1);
    t := SecondRuns();
    ReachesKeeps(s, t, true);
    ToldMissesWorkers(t, [true, true], 0, 1);
    t := Then(s, t, StopManager([true, true]), true);
  }

  /** And so it does when the first worker has stopped before the manager is to stop. */
  lemma StoppedWorkerHangs() returns (t: State)
    ensures Reaches(Initial(2, 1, 1), t, false)
    ensures t.managerAt.Looping? && !t.gone && !t.managerStop.Unpublished? && t.workersAt == [Done, Looping]
    ensures !CanLeave(t)
  {
    hide Reaches, CanLeave, Inv;
    var s := Initial(2, 1, 1);
    InitialOk(2, 1, 1);
    t := FirstQuits();
    ReachesKeeps(s, t, false);
    ToldMissesWorkers(t, [true, true], 0, 1);
    t := Then(s, t, StopManager([true, true]), false);
  }

  /** The manager in its loop, with two workers as given. */
  predicate InLoop(s: State, ws: seq<Runstate>, at: seq<Place>) {
    && !s.gone && s.managerAt.Looping? && s.manager.RUNNING? && s.managerStop.Unpublished?
    && s.workers == ws && s.workersAt == at && s.told == [false, false]
  }

  lemma SecondSpawned() returns (t: State)
    ensures Reaches(Initial(2, 1, 1), t, true) && InLoop(t, [NIL, STARTING], [Unborn, Starting])
  {
    hide Reaches;
    var s := Initial(2, 1, 1);
    t := ManagerBorn();
    t := Then(s, t, SkipWorker, true);
    t := Then(s, t, SpawnWorker, true);
    t := Then(s, t, ManagerEnters, true);
  }

  lemma SecondRuns() returns (t: State)
    ensures Reaches(Initial(2, 1, 1), t, true) && InLoop(t, [NIL, RUNNING], [Unborn, Looping])
  {
    hide Reaches;
    t := SecondSpawned();
    t := Then(Initial(2, 1, 1), t, WorkerRuns(1), true);
  }

  /** And when both are running, but there is no memory to queue the message to the first. */
  lemma FailedSendHangs() returns (t: State)
    ensures Reaches(Initial(2, 1, 1), t, true)
    ensures t.managerAt.Looping? && !t.gone && !t.managerStop.Unpublished? && t.workersAt == [Looping, Looping]
    ensures !CanLeave(t)
  {
    hide Reaches, CanLeave, Inv;
    var s := Initial(2, 1, 1);
    InitialOk(2, 1, 1);
    t := BothRun();
    ReachesKeeps(s, t, true);
    ToldMissesWorkers(t, [false, true], 0, 1);
    t := Then(s, t, StopManager([false, true]), true);
  }

  lemma FirstQuits() returns (t: State)
    ensures Reaches(Initial(2, 1, 1), t, false) && InLoop(t, [STOPPED, RUNNING], [Done, Looping])
  {
    hide Reaches;
    var s := Initial(2, 1, 1);
    t := BothRun();
    Disobedient(s, t);
    t := Then(s, t, WorkerQuits(0), false);
    t := Then(s, t, WorkerFinishes(0), false);
  }

  lemma BothSpawned() returns (t: State)
    ensures Reaches(Initial(2, 1, 1), t, true) && InLoop(t, [STARTING, STARTING], [Starting, Starting])
  {
    hide Reaches;
    var s := Initial(2, 1, 1);
    t := ManagerBorn();
    t := Then(s, t, SpawnWorker, true);
    t := Then(s, t, SpawnWorker, true);
    t := Then(s, t, ManagerEnters, true);
  }

  lemma BothRun() returns (t: State)
    ensures Reaches(Initial(2, 1, 1), t, true) && InLoop(t, [RUNNING, RUNNING], [Looping, Looping])
  {
    hide Reaches;
    t := BothSpawned();
    t := Then(Initial(2, 1, 1), t, WorkerRuns(0), true);
    t := Then(Initial(2, 1, 1), t, WorkerRuns(1), true);
  }

  lemma Disobedient(s: State, t: State)
    requires Reaches(s, t, true)
    ensures Reaches(s, t, false)
  {
    var es :| Leads(s, es, t, true);
    assert Leads(s, es, t, false);
  }

  // ---- the master

  predicate MasterLeads(s: State, es: seq<Step>, t: State) {
    Run(s, es) && After(s, es) == t && forall e :: e in es ==> ByMaster(e)
  }

  /** The master can come to its end by itself. */
  ghost predicate MasterCanStop(s: State) {
    exists es, t :: MasterLeads(s, es, t) && t.masterAt.Done?
  }

  lemma MasterAlso(s: State, e: Step)
    requires Enabled(s, e) && ByMaster(e) && MasterCanStop(Apply(s, e))
    ensures MasterCanStop(s)
  {
    hide Enabled, Apply, ByMaster;
    var es, t :| MasterLeads(Apply(s, e), es, t) && t.masterAt.Done?;
    assert ([e] + es)[1..] == es;
    assert MasterLeads(s, [e] + es, t);
  }

  /** By itself the master sees the manager dead only if its process is gone. */
  lemma {:induction false} ManagerStaysAlive(s: State, es: seq<Step>)
    requires Run(s, es) && (forall e :: e in es ==> ByMaster(e)) && !s.gone
    ensures After(s, es).manager == s.manager
    decreases |es|
  {
    hide Apply, Enabled, ByMaster;
    if es != [] {
      MasterTouches(s, es[0]);
      ManagerStaysAlive(Apply(s, es[0]), es[1..]);
    }
  }

  /** A stopping master whose manager is dead comes to its end. */
  lemma {:induction false} MasterEnds(s: State)
    requires Inv(s) && s.masterAt.Looping? && !s.masterStop.Unpublished? && s.manager.DEAD?
    ensures MasterCanStop(s)
    decreases match s.masterStop case Over => 0 case At(k) => 1 + 2 * (s.masterLast - k) case Delayed(k) => 2 + 2 * (s.masterLast - k) case _ => 0
  {
    hide MasterCanStop, WorkersOk, ToldOk, AllDead, Reaped, Told;
    match s.masterStop {
      case Over =>
        var u := Apply(s, MasterLeaves);
        var t := Apply(u, MasterFinishes);
        assert MasterCanStop(t) by { MasterIsDone(t); }
        MasterAlso(u, MasterFinishes);
        MasterAlso(s, MasterLeaves);
      case At(_) =>
        StepKeeps(s, MasterListener(Goes));
        MasterEnds(Apply(s, MasterListener(Goes)));
        MasterAlso(s, MasterListener(Goes));
      case Delayed(_) =>
        StepKeeps(s, ResumeMaster);
        MasterEnds(Apply(s, ResumeMaster));
        MasterAlso(s, ResumeMaster);
    }
  }

  lemma MasterIsDone(s: State)
    requires s.masterAt.Done?
    ensures MasterCanStop(s)
  {
    assert MasterLeads(s, [], s);
  }

  /** A stopping master can come to its end by itself if and only if the manager's process is gone, or
      the manager has failed: it waits for nothing else, and for nothing less. */
  lemma MasterStopsIff(s: State)
    requires Inv(s) && s.masterAt.Looping? && !s.masterStop.Unpublished?
    ensures MasterCanStop(s) <==> s.gone || s.manager.DEAD?
  {
    if s.manager.DEAD? {
      MasterEnds(s);
    } else if s.gone {
      StepKeeps(s, ReapManager);
      MasterEnds(Apply(s, ReapManager));
      MasterAlso(s, ReapManager);
    } else {
      forall es, t | MasterLeads(s, es, t) ensures !t.masterAt.Done? {
        ManagerStaysAlive(s, es);
        RunKeeps(s, es);
      }
    }
  }
}
