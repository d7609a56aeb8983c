/** The scheduler's protocol as interleaved steps: module loops, the scans they and others start, worker
    tokens, cancellation and the wait group that Stop waits for. */
module Scheduler {
  import opened Prelude

  /** Who started a scan. OnDemand scans (ScanNow) run under their caller's context and are waited for by the
      caller, not by Stop. */
  datatype Origin = SweepOf(moduleLoop: nat) | AddedTarget | OnDemand

  /** Where a scan's goroutine is. Leaving: its scan has returned, its accounting is still to come. */
  datatype Phase = Waiting | Collecting | Reconciling | Leaving | Ended

  /** gaveUp: it took the cancelled branch while waiting. reachedStore: it called the engine. late: it began after
      Stop had returned. */
  datatype Scan = Scan(origin: Origin, phase: Phase, gaveUp: bool, reachedStore: bool, late: bool)

  datatype State = State(
    workers: nat,
    tokens: nat,
    cancelled: bool,
    stopped: bool,
    waitGroup: int,
    loops: map<nat, bool>,
    scans: map<nat, Scan>)

  /** Just after Start: every registered module's loop is running. */
  function Started(workers: nat, modules: set<nat>): State {
    State(workers, 0, false, false, |modules|, map m | m in modules :: true, map[])
  }

  datatype Step =
    | Spawn(moduleLoop: nat, id: nat)
    | StartAdded(id: nat)
    | StartOnDemand(id: nat)
    | Acquire(id: nat)
    | GiveUp(id: nat)
    | CollectFails(id: nat)
    | CollectReturns(id: nat)
    | ReconcileReturns(id: nat)
    | Finish(id: nat)
    | LoopExits(moduleLoop: nat)
    | CancelAll
    | WaitReturns

  predicate InPhase(s: State, id: nat, p: Phase) {
    id in s.scans && s.scans[id].phase == p
  }

  /** When a step can happen. */
  predicate Enabled(s: State, a: Step) {
    match a
    case Spawn(m, id) => m in s.loops && s.loops[m] && id !in s.scans
    case StartAdded(id) => id !in s.scans
    case StartOnDemand(id) => id !in s.scans
    case Acquire(id) => InPhase(s, id, Waiting) && s.tokens < s.workers
    case GiveUp(id) => InPhase(s, id, Waiting) && (s.cancelled || s.scans[id].origin.OnDemand?)
    case CollectFails(id) => InPhase(s, id, Collecting)
    case CollectReturns(id) => InPhase(s, id, Collecting)
    case ReconcileReturns(id) => InPhase(s, id, Reconciling)
    case Finish(id) => InPhase(s, id, Leaving)
    case LoopExits(m) => m in s.loops && s.loops[m] && s.cancelled
    case CancelAll => true
    case WaitReturns => s.cancelled && s.waitGroup == 0
  }

  function Begin(s: State, id: nat, origin: Origin): State {
    s.(scans := s.scans[id := Scan(origin, Waiting, false, false, s.stopped)],
       waitGroup := if origin.OnDemand? then s.waitGroup else s.waitGroup + 1)
  }

  function Moved(s: State, id: nat, p: Phase): State
    requires id in s.scans
  {
    s.(scans := s.scans[id := s.scans[id].(phase := p)])
  }

  function Apply(s: State, a: Step): State
    requires Enabled(s, a)
  {
    match a
    case Spawn(m, id) => Begin(s, id, SweepOf(m))
    case StartAdded(id) => Begin(s, id, AddedTarget)
    case StartOnDemand(id) => Begin(s, id, OnDemand)
    case Acquire(id) => Moved(s, id, Collecting).(tokens := s.tokens + 1)
    case GiveUp(id) => s.(scans := s.scans[id := s.scans[id].(phase := Leaving, gaveUp := true)])
    case CollectFails(id) =>
      Moved(s, id, Leaving).(tokens := if s.tokens > 0 then s.tokens - 1 else 0)
    case CollectReturns(id) =>
      s.(scans := s.scans[id := s.scans[id].(phase := Reconciling, reachedStore := true)])
    case ReconcileReturns(id) =>
      Moved(s, id, Leaving).(tokens := if s.tokens > 0 then s.tokens - 1 else 0)
    case Finish(id) =>
      Moved(s, id, Ended).(waitGroup := if s.scans[id].origin.OnDemand? then s.waitGroup else s.waitGroup - 1)
    case LoopExits(m) => s.(loops := s.loops[m := false], waitGroup := s.waitGroup - 1)
    case CancelAll => s.(cancelled := true)
    case WaitReturns => s.(stopped := true)
  }

  /** The state after a run, if every step of it could happen when it did. */
  function Run(s: State, steps: seq<Step>): Option<State> {
    if steps == [] then Some(s)
    else
      match Run(s, steps[..|steps| - 1])
      case None => None
      case Some(t) =>
        var a := steps[|steps| - 1];
        if Enabled(t, a) then Some(Apply(t, a)) else None
  }

  // ----- the invariant -----

  function Holding(s: State): set<nat> {
    set id | id in s.scans && (s.scans[id].phase.Collecting? || s.scans[id].phase.Reconciling?)
  }

  /** The scans the wait group counts. */
  function Counted(s: State): set<nat> {
    set id | id in s.scans && !s.scans[id].origin.OnDemand? && !s.scans[id].phase.Ended?
  }

  function LiveLoops(s: State): set<nat> {
    set m | m in s.loops && s.loops[m]
  }

  predicate GivesUpCleanly(x: Scan) {
    && (x.gaveUp ==> !x.reachedStore && (x.phase.Leaving? || x.phase.Ended?))
    && (x.phase.Waiting? || x.phase.Collecting? ==> !x.reachedStore)
  }

  ghost predicate Inv(s: State) {
    && s.tokens == |Holding(s)|
    && s.tokens <= s.workers
    && s.waitGroup == |LiveLoops(s)| + |Counted(s)|
    && (forall id <- s.scans :: GivesUpCleanly(s.scans[id]))
    && (s.stopped ==> s.cancelled && Quiet(s))
    && (!s.cancelled ==> Unhurried(s))
  }

  /** All module loops have ended, and so has every scan the wait group counted before Stop returned: those the
      loops started and those of added targets. */
  ghost predicate Quiet(s: State) {
    && LiveLoops(s) == {}
    && forall id <- s.scans :: !s.scans[id].origin.OnDemand? && !s.scans[id].late ==> s.scans[id].phase.Ended?
  }

  /** Every module loop is running, and no scan of the scheduler's own has given up. */
  ghost predicate Unhurried(s: State) {
    && LiveLoops(s) == s.loops.Keys
    && forall id <- s.scans :: s.scans[id].gaveUp ==> s.scans[id].origin.OnDemand?
  }

  lemma StartedInv(workers: nat, modules: set<nat>)
    ensures Inv(Started(workers, modules))
  {
    var s := Started(workers, modules);
    assert LiveLoops(s) == modules;
    assert Holding(s) == {} && Counted(s) == {};
  }

  lemma BeginSets(s: State, id: nat, origin: Origin)
    requires id !in s.scans
    ensures var t := Begin(s, id, origin);
      && Holding(t) == Holding(s) && LiveLoops(t) == LiveLoops(s)
      && id !in Counted(s)
      && Counted(t) == if origin.OnDemand? then Counted(s) else Counted(s) + {id}
  {
  }

  lemma BeginScans(s: State, id: nat, origin: Origin)
    requires Inv(s) && id !in s.scans && (origin.SweepOf? ==> LiveLoops(s) != {})
    ensures var t := Begin(s, id, origin);
      && (forall j <- t.scans :: GivesUpCleanly(t.scans[j]))
      && (s.stopped ==> Quiet(t))
  {
    BeginSets(s, id, origin);
  }

  lemma BeginInv(s: State, id: nat, origin: Origin)
    requires Inv(s) && id !in s.scans && (origin.SweepOf? ==> LiveLoops(s) != {})
    ensures Inv(Begin(s, id, origin))
  {
    BeginSets(s, id, origin);
    BeginScans(s, id, origin);
  }

  /** The sets after one scan moves from one phase to another. */
  lemma MoveSets(s: State, id: nat, x: Scan)
    requires id in s.scans && x.origin == s.scans[id].origin && !s.scans[id].phase.Ended?
    ensures var t := s.(scans := s.scans[id := x]);
      && LiveLoops(t) == LiveLoops(s)
      && Holding(t) == Holding(s) - {id} + (if x.phase.Collecting? || x.phase.Reconciling? then {id} else {})
      && Counted(t) == if x.phase.Ended? then Counted(s) - {id} else Counted(s)
  {
  }

  /** What the invariant says of single scans survives a move that keeps origin and lateness. */
  lemma MovedScans(s: State, id: nat, x: Scan)
    requires Inv(s) && id in s.scans && !s.scans[id].phase.Ended? && GivesUpCleanly(x)
    requires x.origin == s.scans[id].origin && x.late == s.scans[id].late
    requires x.gaveUp && !s.cancelled ==> x.origin.OnDemand?
    ensures var t := s.(scans := s.scans[id := x]);
      && (forall j <- t.scans :: GivesUpCleanly(t.scans[j]))
      && (s.stopped ==> Quiet(t))
      && (!s.cancelled ==> Unhurried(t))
  {
    MoveSets(s, id, x);
  }

  lemma HoldingKept(s: State, id: nat, x: Scan)
    requires id in s.scans && !s.scans[id].phase.Ended? && !x.phase.Ended? && x.origin == s.scans[id].origin
    requires id in Holding(s) <==> x.phase.Collecting? || x.phase.Reconciling?
    ensures var t := s.(scans := s.scans[id := x]);
      Holding(t) == Holding(s) && Counted(t) == Counted(s) && LiveLoops(t) == LiveLoops(s)
  {
    MoveSets(s, id, x);
    if id in Holding(s) {
      assert Holding(s) - {id} + {id} == Holding(s);
    }
  }

  /** A move that takes or returns no token and stays within what the wait group counts. */
  lemma MovedInv(s: State, id: nat, x: Scan)
    requires Inv(s) && id in s.scans && !s.scans[id].phase.Ended? && !x.phase.Ended? && GivesUpCleanly(x)
    requires x.origin == s.scans[id].origin && x.late == s.scans[id].late
    requires x.gaveUp && !s.cancelled ==> x.origin.OnDemand?
    requires id in Holding(s) <==> x.phase.Collecting? || x.phase.Reconciling?
    ensures Inv(s.(scans := s.scans[id := x]))
  {
    HoldingKept(s, id, x);
    MovedScans(s, id, x);
  }

  lemma AcquireInv(s: State, id: nat)
    requires Inv(s) && Enabled(s, Acquire(id))
    ensures Inv(Apply(s, Acquire(id)))
  {
    var x := s.scans[id].(phase := Collecting);
    MoveSets(s, id, x);
    MovedScans(s, id, x);
    assert id !in Holding(s);
  }

  lemma LeaveInv(s: State, id: nat, a: Step)
    requires Inv(s) && Enabled(s, a) && (a == CollectFails(id) || a == ReconcileReturns(id))
    ensures Inv(Apply(s, a))
  {
    var x := s.scans[id].(phase := Leaving);
    MoveSets(s, id, x);
    MovedScans(s, id, x);
    assert id in Holding(s);
  }

  lemma GiveUpInv(s: State, id: nat)
    requires Inv(s) && Enabled(s, GiveUp(id))
    ensures Inv(Apply(s, GiveUp(id)))
  {
    MovedInv(s, id, s.scans[id].(phase := Leaving, gaveUp := true));
  }

  lemma ReconcileInv(s: State, id: nat)
    requires Inv(s) && Enabled(s, CollectReturns(id))
    ensures Inv(Apply(s, CollectReturns(id)))
  {
    MovedInv(s, id, s.scans[id].(phase := Reconciling, reachedStore := true));
  }

  /** A scan that ends holds no token, and leaves the wait group if it was counted. */
  lemma FinishCounts(s: State, id: nat)
    requires Enabled(s, Finish(id))
    ensures Holding(s) - {id} == Holding(s)
    ensures |Counted(s) - {id}| == |Counted(s)| - if s.scans[id].origin.OnDemand? then 0 else 1
  {
    if s.scans[id].origin.OnDemand? {
      assert Counted(s) - {id} == Counted(s);
    } else {
      assert id in Counted(s);
    }
  }

  lemma FinishInv(s: State, id: nat)
    requires Inv(s) && Enabled(s, Finish(id))
    ensures Inv(Apply(s, Finish(id)))
  {
    var x := s.scans[id].(phase := Ended);
    MoveSets(s, id, x);
    MovedScans(s, id, x);
    FinishCounts(s, id);
  }

  lemma LoopExitInv(s: State, m: nat)
    requires Inv(s) && Enabled(s, LoopExits(m))
    ensures Inv(Apply(s, LoopExits(m)))
  {
    var t := Apply(s, LoopExits(m));
    assert LiveLoops(t) == LiveLoops(s) - {m} && m in LiveLoops(s);
    assert Holding(t) == Holding(s) && Counted(t) == Counted(s);
  }

  lemma WaitInv(s: State)
    requires Inv(s) && Enabled(s, WaitReturns)
    ensures Inv(Apply(s, WaitReturns))
  {
    var t := Apply(s, WaitReturns);
    assert Holding(t) == Holding(s) && Counted(t) == Counted(s) && LiveLoops(t) == LiveLoops(s);
    assert Counted(s) == {} && LiveLoops(s) == {};
    forall id | id in s.scans && !s.scans[id].origin.OnDemand? ensures s.scans[id].phase.Ended? {
      assert id !in Counted(s);
    }
  }

  /** Every step keeps the invariant. */
  lemma StepInv(s: State, a: Step)
    requires Inv(s) && Enabled(s, a)
    ensures Inv(Apply(s, a))
  {
    match a
    case Spawn(m, id) =>
      assert m in LiveLoops(s);
      BeginInv(s, id, SweepOf(m));
    case StartAdded(id) => BeginInv(s, id, AddedTarget);
    case StartOnDemand(id) => BeginInv(s, id, OnDemand);
    case Acquire(id) => AcquireInv(s, id);
    case GiveUp(id) => GiveUpInv(s, id);
    case CollectFails(id) => LeaveInv(s, id, a);
    case CollectReturns(id) => ReconcileInv(s, id);
    case ReconcileReturns(id) => LeaveInv(s, id, a);
    case Finish(id) => FinishInv(s, id);
    case LoopExits(m) => LoopExitInv(s, m);
    case CancelAll =>
      var t := Apply(s, a);
      assert Holding(t) == Holding(s) && Counted(t) == Counted(s) && LiveLoops(t) == LiveLoops(s);
    case WaitReturns => WaitInv(s);
  }

  lemma {:induction false} RunInv(workers: nat, modules: set<nat>, steps: seq<Step>)
    requires Run(Started(workers, modules), steps).Some?
    ensures Inv(Run(Started(workers, modules), steps).value)
    ensures Run(Started(workers, modules), steps).value.workers == workers
  {
    if steps == [] {
      StartedInv(workers, modules);
    } else {
      RunInv(workers, modules, steps[..|steps| - 1]);
      StepInv(Run(Started(workers, modules), steps[..|steps| - 1]).value, steps[|steps| - 1]);
    }
  }

  // ----- what every interleaving guarantees -----

  /** The scans inside Collect or Reconcile are exactly as many as the tokens held, and never more than the
      workers; when none is inside, every token has been returned. */
  lemma WorkersBoundScans(workers: nat, modules: set<nat>, steps: seq<Step>)
    requires Run(Started(workers, modules), steps).Some?
    ensures var s := Run(Started(workers, modules), steps).value;
      && |Holding(s)| == s.tokens <= workers
      && (Holding(s) == {} <==> s.tokens == 0)
  {
    RunInv(workers, modules, steps);
  }

  /** A waiting scan needs no token to leave once its context is cancelled, which for an on-demand scan can be at any
      time. */
  lemma WaitingScanMayLeave(s: State, id: nat)
    requires InPhase(s, id, Waiting) && (s.cancelled || s.scans[id].origin.OnDemand?)
    ensures Enabled(s, GiveUp(id))
    ensures var t := Apply(s, GiveUp(id));
      InPhase(t, id, Leaving) && t.scans[id].gaveUp && t.tokens == s.tokens && Enabled(t, Finish(id))
  {
  }

  /** Until the scheduler is cancelled every module loop runs, and only on-demand scans give up. */
  lemma NothingGivesUpEarly(workers: nat, modules: set<nat>, steps: seq<Step>)
    requires Run(Started(workers, modules), steps).Some?
    requires CancelAll !in steps
    ensures Unhurried(Run(Started(workers, modules), steps).value)
  {
    RunInv(workers, modules, steps);
    NotCancelled(workers, modules, steps);
  }

  lemma {:induction false} NotCancelled(workers: nat, modules: set<nat>, steps: seq<Step>)
    requires Run(Started(workers, modules), steps).Some?
    requires CancelAll !in steps
    ensures !Run(Started(workers, modules), steps).value.cancelled
  {
    if steps != [] {
      NotCancelled(workers, modules, steps[..|steps| - 1]);
      assert steps[|steps| - 1] in steps;
    }
  }

  /** A scan that gave up while waiting never reaches the store. */
  lemma GivenUpNeverReachesStore(workers: nat, modules: set<nat>, steps: seq<Step>, id: nat)
    requires Run(Started(workers, modules), steps).Some?
    ensures var s := Run(Started(workers, modules), steps).value;
      id in s.scans && s.scans[id].gaveUp ==> !s.scans[id].reachedStore
  {
    RunInv(workers, modules, steps);
  }

  /** From the moment Stop returns, in every continuation, all module loops have ended, and so have all scans they
      started and all scans of targets added before Stop returned. */
  lemma StopMeansQuiet(workers: nat, modules: set<nat>, steps: seq<Step>)
    requires Run(Started(workers, modules), steps).Some?
    requires Run(Started(workers, modules), steps).value.stopped
    ensures Quiet(Run(Started(workers, modules), steps).value)
  {
    RunInv(workers, modules, steps);
  }

  /** While some scan has not ended, one of the scans can move on by itself: no path leaks a token. */
  lemma ScansNeverStuck(workers: nat, modules: set<nat>, steps: seq<Step>, id: nat)
    requires workers > 0 && Run(Started(workers, modules), steps).Some?
    requires var s := Run(Started(workers, modules), steps).value; id in s.scans && !s.scans[id].phase.Ended?
    ensures var s := Run(Started(workers, modules), steps).value;
      exists a, j :: a in [Acquire(j), CollectReturns(j), ReconcileReturns(j), Finish(j)] && Enabled(s, a)
  {
    RunInv(workers, modules, steps);
    var s := Run(Started(workers, modules), steps).value;
    match s.scans[id].phase
    case Waiting =>
      if s.tokens < s.workers {
        Moves(s, id, Acquire(id));
      } else {
        var j :| j in Holding(s);
        Moves(s, j, if s.scans[j].phase.Collecting? then CollectReturns(j) else ReconcileReturns(j));
      }
    case Collecting => Moves(s, id, CollectReturns(id));
    case Reconciling => Moves(s, id, ReconcileReturns(id));
    case Leaving => Moves(s, id, Finish(id));
  }

  lemma Moves(s: State, j: nat, a: Step)
    requires a in [Acquire(j), CollectReturns(j), ReconcileReturns(j), Finish(j)] && Enabled(s, a)
    ensures exists a, j :: a in [Acquire(j), CollectReturns(j), ReconcileReturns(j), Finish(j)] && Enabled(s, a)
  {
  }
}
