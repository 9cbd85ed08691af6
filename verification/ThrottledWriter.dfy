/**
 The per-region write throttle of the importer: a locked map of ref-counted semaphores, write
 futures that take and return permits without the lock, and a garbage collector that drops map
 entries one by one while they do so.
 */
module ThrottledWriter {
  import opened Wrappers
  import opened Sums

  const MAX_CONCURRENCY_PER_REGION: nat := 16

  // A write future. It owns one reference to its semaphore from creation until it is dropped;
  // in `Released` the permit is back but the reference is still there.
  datatype Phase = Queued | Holding | Released | Dropped

  datatype Task = Task(region: nat, sem: nat, phase: Phase)

  // Semaphores are numbered in order of creation; `permits` holds what each has available.
  // `gc` is Some while try_gc holds the lock, with the entries `retain` has yet to look at.
  datatype State = State(
    maxPermit: nat, sems: map<nat, nat>, permits: seq<nat>, tasks: seq<Task>, gc: Option<set<nat>>, handles: nat)

  datatype Step =
    | Write(region: nat)
    | Acquire(task: nat)
    | Release(task: nat)
    | Drop(task: nat)
    | CloneHandle
    | DropHandle
    | GcBegin
    | GcVisit(region: nat)
    | GcEnd

  function Init(maxPermit: nat): (s: State) {
    State(maxPermit, map[], [], [], None, 1)
  }

  function Alive(sem: nat): (w: Task -> nat) {
    (t: Task) => if t.sem == sem && !t.phase.Dropped? then 1 else 0
  }

  function Holds(sem: nat): (w: Task -> nat) {
    (t: Task) => if t.sem == sem && t.phase.Holding? then 1 else 0
  }

  function HoldsIn(region: nat): (w: Task -> nat) {
    (t: Task) => if t.region == region && t.phase.Holding? then 1 else 0
  }

  // Arc::strong_count of a semaphore that the map stores once.
  function StrongCount(s: State, sem: nat): (n: nat) {
    1 + Total(s.tasks, Alive(sem))
  }

  predicate Is(s: State, t: nat, phases: set<Phase>) {
    t < |s.tasks| && s.tasks[t].phase in phases && s.tasks[t].sem < |s.permits|
  }

  function Move(s: State, t: nat, phase: Phase): (s': State)
    requires t < |s.tasks|
  {
    s.(tasks := s.tasks[t := s.tasks[t].(phase := phase)])
  }

  // One atomic step of any participant; a step that is not enabled changes nothing.
  function Apply(s: State, step: Step): (s': State) {
    match step
    case Write(region) =>
      if s.gc.Some? || s.handles == 0 then s
      else if region in s.sems then s.(tasks := s.tasks + [Task(region, s.sems[region], Queued)])
      else s.(sems := s.sems[region := |s.permits|],
              permits := s.permits + [s.maxPermit],
              tasks := s.tasks + [Task(region, |s.permits|, Queued)])
    case Acquire(t) =>
      if Is(s, t, {Queued}) && s.permits[s.tasks[t].sem] > 0 then
        var sem := s.tasks[t].sem;
        Move(s, t, Holding).(permits := s.permits[sem := s.permits[sem] - 1])
      else s
    case Release(t) =>
      if Is(s, t, {Holding}) then
        var sem := s.tasks[t].sem;
        Move(s, t, Released).(permits := s.permits[sem := s.permits[sem] + 1])
      else s
    case Drop(t) =>
      if Is(s, t, {Queued, Released}) then Move(s, t, Dropped) else s
    case CloneHandle => if s.handles > 0 then s.(handles := s.handles + 1) else s
    case DropHandle => if s.handles > 0 then s.(handles := s.handles - 1) else s
    // the handles are counted before the lock is taken, so the others may be gone by now
    case GcBegin => if s.gc.None? && s.handles > 0 then s.(gc := Some(s.sems.Keys)) else s
    case GcVisit(region) =>
      if s.gc.Some? && region in s.gc.value && region in s.sems then
        var kept := if StrongCount(s, s.sems[region]) > 1 then s.sems else s.sems - {region};
        s.(sems := kept, gc := Some(s.gc.value - {region}))
      else s
    case GcEnd => if s.gc == Some({}) then s.(gc := None) else s
  }

  function Run(s: State, steps: seq<Step>): (s': State) {
    if steps == [] then s else Apply(Run(s, steps[..|steps| - 1]), steps[|steps| - 1])
  }

  // ---- the invariant ----

  // Every living write holds the very semaphore that the map stores for its region.
  ghost predicate Shared(s: State) {
    forall t :: 0 <= t < |s.tasks| ==>
      s.tasks[t].sem < |s.permits| &&
      (!s.tasks[t].phase.Dropped? ==> s.tasks[t].region in s.sems && s.sems[s.tasks[t].region] == s.tasks[t].sem)
  }

  ghost predicate Separate(s: State) {
    && (forall r :: r in s.sems ==> s.sems[r] < |s.permits|)
    && (forall q, r :: q in s.sems && r in s.sems && s.sems[q] == s.sems[r] ==> q == r)
  }

  ghost predicate Conserved(s: State) {
    forall sem :: 0 <= sem < |s.permits| ==> Balance(s, sem)
  }

  ghost predicate Balance(s: State, sem: nat)
    requires sem < |s.permits|
  {
    s.permits[sem] + Total(s.tasks, Holds(sem)) == s.maxPermit
  }

  ghost predicate Inv(s: State) {
    Shared(s) && Separate(s) && Conserved(s) && (s.gc.Some? ==> s.gc.value <= s.sems.Keys)
  }

  lemma MoveConserves(s: State, s': State, t: nat)
    requires Conserved(s) && t < |s.tasks| && t < |s'.tasks| && s.tasks[t].sem < |s.permits|
    requires s'.maxPermit == s.maxPermit && s'.tasks == s.tasks[t := s.tasks[t].(phase := s'.tasks[t].phase)]
    requires |s'.permits| == |s.permits|
    requires forall k :: 0 <= k < |s.permits| && k != s.tasks[t].sem ==> s'.permits[k] == s.permits[k]
    requires var sem := s.tasks[t].sem;
      s'.permits[sem] + Holds(sem)(s'.tasks[t]) == s.permits[sem] + Holds(sem)(s.tasks[t])
    ensures Conserved(s')
  {
    forall sem | 0 <= sem < |s'.permits| ensures Balance(s', sem) {
      assert Balance(s, sem);
      TotalUpdate(s.tasks, t, s'.tasks[t], Holds(sem));
    }
  }

  lemma WriteConserves(s: State, region: nat)
    requires Inv(s)
    ensures Conserved(Apply(s, Write(region)))
  {
    var s' := Apply(s, Write(region));
    if s'.tasks != s.tasks {
      var task := s'.tasks[|s.tasks|];
      forall sem | 0 <= sem < |s'.permits| ensures Balance(s', sem) {
        TotalAppend(s.tasks, task, Holds(sem));
        if sem < |s.permits| {
          assert Balance(s, sem);
        } else {
          TotalZero(s.tasks, Holds(sem));
        }
      }
    }
  }

  ghost predicate HasWriter(tasks: seq<Task>, region: nat) {
    exists t :: 0 <= t < |tasks| && tasks[t].region == region && !tasks[t].phase.Dropped?
  }

  // retain drops an entry exactly when no living write belongs to its region.
  lemma VisitKeepsExactlyTheBusy(s: State, region: nat)
    requires Inv(s) && region in s.sems && s.gc.Some? && region in s.gc.value
    ensures region in Apply(s, GcVisit(region)).sems <==> HasWriter(s.tasks, region)
    ensures Apply(s, GcVisit(region)).sems - {region} == s.sems - {region}
  {
    var sem := s.sems[region];
    TotalZero(s.tasks, Alive(sem));
    forall t | 0 <= t < |s.tasks|
      ensures Alive(sem)(s.tasks[t]) == 1 <==> s.tasks[t].region == region && !s.tasks[t].phase.Dropped?
    {
      assert s.tasks[t].sem < |s.permits|;
    }
  }

  lemma WriteKeepsInv(s: State, region: nat)
    requires Inv(s)
    ensures Inv(Apply(s, Write(region)))
  {
    WriteConserves(s, region);
  }

  lemma MoveKeepsInv(s: State, step: Step)
    requires Inv(s) && (step.Acquire? || step.Release? || step.Drop?)
    ensures Inv(Apply(s, step))
  {
    var s' := Apply(s, step);
    if s' != s { MoveConserves(s, s', step.task); }
  }

  lemma VisitKeepsInv(s: State, region: nat)
    requires Inv(s)
    ensures Inv(Apply(s, GcVisit(region)))
  {
    var s' := Apply(s, GcVisit(region));
    if s' != s {
      VisitKeepsExactlyTheBusy(s, region);
      SameBalance(s, s');
    }
  }

  lemma SameBalance(s: State, s': State)
    requires Conserved(s) && s'.maxPermit == s.maxPermit && s'.permits == s.permits && s'.tasks == s.tasks
    ensures Conserved(s')
  {
    forall sem | 0 <= sem < |s'.permits| ensures Balance(s', sem) { assert Balance(s, sem); }
  }

  lemma StepKeepsInv(s: State, step: Step)
    requires Inv(s)
    ensures Inv(Apply(s, step))
  {
    match step {
      case Write(region) => WriteKeepsInv(s, region);
      case Acquire(_) => MoveKeepsInv(s, step);
      case Release(_) => MoveKeepsInv(s, step);
      case Drop(_) => MoveKeepsInv(s, step);
      case GcVisit(region) => VisitKeepsInv(s, region);
      case _ => SameBalance(s, Apply(s, step));
    }
  }

  lemma {:induction false} RunKeepsInv(s: State, steps: seq<Step>)
    requires Inv(s)
    ensures Inv(Run(s, steps))
  {
    if steps != [] {
      RunKeepsInv(s, steps[..|steps| - 1]);
      StepKeepsInv(Run(s, steps[..|steps| - 1]), steps[|steps| - 1]);
    }
  }

  // ---- what every run guarantees ----

  lemma HoldersOfRegion(s: State, region: nat)
    requires Inv(s)
    ensures Total(s.tasks, HoldsIn(region)) <= s.maxPermit
    ensures region !in s.sems ==> Total(s.tasks, HoldsIn(region)) == 0
    ensures region in s.sems ==>
      s.sems[region] < |s.permits| && s.permits[s.sems[region]] + Total(s.tasks, HoldsIn(region)) == s.maxPermit
  {
    if region in s.sems {
      var sem := s.sems[region];
      assert Balance(s, sem);
      TotalMonotone(s.tasks, HoldsIn(region), Holds(sem));
      TotalMonotone(s.tasks, Holds(sem), HoldsIn(region));
    } else {
      TotalZero(s.tasks, HoldsIn(region));
    }
  }

  // The throttle: in every interleaving, at most maxPermit writes of a region run at once.
  lemma ThrottleHolds(maxPermit: nat, steps: seq<Step>, region: nat)
    ensures Total(Run(Init(maxPermit), steps).tasks, HoldsIn(region)) <= maxPermit
  {
    RunKeepsInv(Init(maxPermit), steps);
    RunKeepsMax(Init(maxPermit), steps);
    HoldersOfRegion(Run(Init(maxPermit), steps), region);
  }

  lemma {:induction false} RunKeepsMax(s: State, steps: seq<Step>)
    ensures Run(s, steps).maxPermit == s.maxPermit
  {
    if steps != [] { RunKeepsMax(s, steps[..|steps| - 1]); }
  }

  // The throttle is not stricter than it has to be: a queued write of any reachable state can go
  // ahead exactly when fewer than maxPermit writes of its region are running.
  lemma QueuedWriteMayRunIff(s: State, t: nat)
    requires Inv(s) && t < |s.tasks| && s.tasks[t].phase.Queued?
    ensures Apply(s, Acquire(t)) != s <==> Total(s.tasks, HoldsIn(s.tasks[t].region)) < s.maxPermit
  {
    HoldersOfRegion(s, s.tasks[t].region);
  }

  // Two writes of one region that are alive at the same time share one semaphore, so the
  // collector can never have let a second one be created beside the first.
  lemma OneSemaphorePerRegion(maxPermit: nat, steps: seq<Step>, a: nat, b: nat)
    requires var s := Run(Init(maxPermit), steps);
      && a < |s.tasks| && b < |s.tasks| && s.tasks[a].region == s.tasks[b].region
      && !s.tasks[a].phase.Dropped? && !s.tasks[b].phase.Dropped?
    ensures var s := Run(Init(maxPermit), steps); s.tasks[a].sem == s.tasks[b].sem
  {
    RunKeepsInv(Init(maxPermit), steps);
  }

  // ---- what the steps of a write do ----

  // A region's permits that nobody holds; all of them while it has no semaphore.
  function Available(s: State, region: nat): (n: nat) {
    if region in s.sems && s.sems[region] < |s.permits| then s.permits[s.sems[region]] else s.maxPermit
  }

  // Taking a permit: one write of the region more runs, and one permit less is free.
  lemma AcquireTakes(s: State, t: nat)
    requires Inv(s) && t < |s.tasks| && s.tasks[t].phase.Queued? && Available(s, s.tasks[t].region) > 0
    ensures var s', region := Apply(s, Acquire(t)), s.tasks[t].region;
      && s'.tasks == s.tasks[t := s.tasks[t].(phase := Holding)] && s'.sems == s.sems && s'.gc == s.gc && s'.handles == s.handles
      && Available(s', region) == Available(s, region) - 1
      && Total(s'.tasks, HoldsIn(region)) == Total(s.tasks, HoldsIn(region)) + 1
  {
    TotalUpdate(s.tasks, t, Apply(s, Acquire(t)).tasks[t], HoldsIn(s.tasks[t].region));
  }

  // A finished write gives its permit back and runs no longer.
  lemma ReleaseReturns(s: State, t: nat)
    requires Inv(s) && t < |s.tasks| && s.tasks[t].phase.Holding?
    ensures var s', region := Apply(s, Release(t)), s.tasks[t].region;
      && s'.tasks == s.tasks[t := s.tasks[t].(phase := Released)] && s'.sems == s.sems && s'.gc == s.gc && s'.handles == s.handles
      && Available(s', region) == Available(s, region) + 1
      && Total(s'.tasks, HoldsIn(region)) == Total(s.tasks, HoldsIn(region)) - 1
  {
    TotalUpdate(s.tasks, t, Apply(s, Release(t)).tasks[t], HoldsIn(s.tasks[t].region));
  }

  // A write that does not run can be dropped, finished or not.
  lemma DropEnds(s: State, t: nat)
    requires Inv(s) && t < |s.tasks| && (s.tasks[t].phase.Queued? || s.tasks[t].phase.Released?)
    ensures var s' := Apply(s, Drop(t));
      s' == s.(tasks := s.tasks[t := s.tasks[t].(phase := Dropped)])
  {}

  // Handles are counted, and without one no write begins.
  lemma HandlesCount(s: State, region: nat)
    ensures s.handles > 0 ==> Apply(s, CloneHandle) == s.(handles := s.handles + 1)
    ensures s.handles > 0 ==> Apply(s, DropHandle) == s.(handles := s.handles - 1)
    ensures s.handles == 0 ==> Apply(s, Step.Write(region)) == s && Apply(s, CloneHandle) == s && Apply(s, GcBegin) == s
  {}

  // ---- no write waits for ever ----

  lemma RunOneMore(s: State, steps: seq<Step>, step: Step)
    ensures Run(s, steps + [step]) == Apply(Run(s, steps), step)
  {
    assert (steps + [step])[..|steps|] == steps;
  }

  lemma {:induction false} RunAppend(s: State, a: seq<Step>, b: seq<Step>)
    ensures Run(s, a + b) == Run(Run(s, a), b)
  {
    if b == [] {
      assert a + b == a;
    } else {
      RunAppend(s, a, b[..|b| - 1]);
      assert (a + b)[..|a + b| - 1] == a + b[..|b| - 1];
    }
  }

  lemma SomeHolder(s: State, region: nat) returns (u: nat)
    requires Total(s.tasks, HoldsIn(region)) > 0
    ensures u < |s.tasks| && s.tasks[u].region == region && s.tasks[u].phase.Holding?
  {
    TotalZero(s.tasks, HoldsIn(region));
    u :| 0 <= u < |s.tasks| && HoldsIn(region)(s.tasks[u]) != 0;
  }

  // s' differs from s in the phases of tasks only; those of the dropped ones are the same.
  ghost predicate Onwards(s: State, s': State) {
    && Inv(s') && s'.maxPermit == s.maxPermit && s'.sems == s.sems && s'.gc == s.gc && s'.handles == s.handles
    && |s'.tasks| == |s.tasks|
    && forall i :: 0 <= i < |s.tasks| ==>
         && s'.tasks[i].region == s.tasks[i].region
         && (s.tasks[i].phase.Dropped? ==> s'.tasks[i].phase.Dropped?)
  }

  lemma MoveOnwards(s: State, m: State, step: Step)
    requires Onwards(s, m) && (step.Acquire? || step.Release? || step.Drop?)
    ensures Onwards(s, Apply(m, step))
  {
    StepKeepsInv(m, step);
  }

  lemma RunOne(s: State, step: Step)
    ensures Run(s, [step]) == Apply(s, step)
  {
    assert [step][..0] == [];
  }

  // A permit of a region that has none left comes free when some write of it ends.
  lemma FreeOne(s: State, region: nat) returns (u: nat)
    requires Inv(s) && s.maxPermit > 0 && Available(s, region) == 0
    ensures u < |s.tasks| && s.tasks[u].phase.Holding?
    ensures Onwards(s, Apply(s, Release(u))) && Available(Apply(s, Release(u)), region) > 0
    ensures Apply(s, Release(u)).tasks == s.tasks[u := s.tasks[u].(phase := Released)]
  {
    HoldersOfRegion(s, region);
    u := SomeHolder(s, region);
    ReleaseReturns(s, u);
    MoveOnwards(s, s, Release(u));
  }

  // Whatever has happened, a queued write gets its permit once at most one other write of the
  // region has finished.
  lemma QueuedWriteGetsItsTurn(s: State, t: nat) returns (steps: seq<Step>)
    requires Inv(s) && s.maxPermit > 0 && t < |s.tasks| && s.tasks[t].phase.Queued?
    ensures |steps| <= 2 && forall x :: x in steps ==> x.Acquire? || x.Release?
    ensures Onwards(s, Run(s, steps)) && Run(s, steps).tasks[t].phase.Holding?
  {
    if Available(s, s.tasks[t].region) > 0 {
      AcquireTakes(s, t);
      MoveOnwards(s, s, Acquire(t));
      RunOne(s, Acquire(t));
      steps := [Acquire(t)];
    } else {
      var u := FreeOne(s, s.tasks[t].region);
      var m := Apply(s, Release(u));
      AcquireTakes(m, t);
      MoveOnwards(s, m, Acquire(t));
      RunOne(s, Release(u));
      RunOneMore(s, [Release(u)], Acquire(t));
      steps := [Release(u)] + [Acquire(t)];
    }
  }

  // A write that has its permit, or had it, can end.
  lemma HolderEnds(s: State, m: State, t: nat) returns (steps: seq<Step>)
    requires Onwards(s, m) && t < |m.tasks| && !m.tasks[t].phase.Queued?
    ensures Onwards(s, Run(m, steps)) && Run(m, steps).tasks[t].phase.Dropped?
  {
    steps := [];
    if m.tasks[t].phase.Holding? {
      ReleaseReturns(m, t);
      RunOneMore(m, steps, Release(t));
      MoveOnwards(s, m, Release(t));
      steps := steps + [Release(t)];
    }
    if !m.tasks[t].phase.Dropped? {
      DropEnds(Run(m, steps), t);
      RunOneMore(m, steps, Drop(t));
      MoveOnwards(s, Run(m, steps), Drop(t));
      steps := steps + [Drop(t)];
    }
  }

  // Any one write can be brought to its end, by way of its permit.
  lemma WriteEnds(s: State, t: nat) returns (steps: seq<Step>)
    requires Inv(s) && s.maxPermit > 0 && t < |s.tasks|
    ensures Onwards(s, Run(s, steps)) && Run(s, steps).tasks[t].phase.Dropped?
  {
    steps := [];
    if s.tasks[t].phase.Queued? {
      steps := QueuedWriteGetsItsTurn(s, t);
    }
    var more := HolderEnds(s, Run(s, steps), t);
    RunAppend(s, steps, more);
    steps := steps + more;
  }

  // So can all of them.
  lemma AllWritesEnd(s: State, n: nat) returns (steps: seq<Step>)
    requires Inv(s) && s.maxPermit > 0 && n <= |s.tasks|
    ensures Onwards(s, Run(s, steps)) && forall i :: 0 <= i < n ==> Run(s, steps).tasks[i].phase.Dropped?
  {
    if n == 0 {
      steps := [];
    } else {
      var front := AllWritesEnd(s, n - 1);
      var more := WriteEnds(Run(s, front), n - 1);
      RunAppend(s, front, more);
      steps := front + more;
    }
  }

  // ---- one collection empties an idle map ----

  ghost predicate Idle(s: State) {
    forall t :: 0 <= t < |s.tasks| ==> s.tasks[t].phase.Dropped?
  }

  ghost predicate Draining(s: State) {
    Inv(s) && Idle(s) && s.gc.Some? && s.sems.Keys <= s.gc.value
  }

  lemma DrainingStep(s: State, step: Step)
    requires Draining(s) && !step.GcEnd?
    ensures Draining(Apply(s, step))
  {
    StepKeepsInv(s, step);
    if step.GcVisit? && Apply(s, step) != s { VisitKeepsExactlyTheBusy(s, step.region); }
  }

  lemma {:induction false} DrainingPersists(s: State, steps: seq<Step>)
    requires Draining(s) && GcEnd !in steps
    ensures Draining(Run(s, steps))
  {
    if steps != [] {
      DrainingPersists(s, steps[..|steps| - 1]);
      DrainingStep(Run(s, steps[..|steps| - 1]), steps[|steps| - 1]);
    }
  }

  // Once all writes are gone, one whole try_gc leaves the map empty, whatever else happens
  // while it runs.
  lemma OneGcEmptiesTheMap(s: State, steps: seq<Step>)
    requires Inv(s) && Idle(s) && s.gc.None? && s.handles > 0 && GcEnd !in steps
    requires Run(Apply(s, GcBegin), steps).gc == Some({})
    ensures Apply(Run(Apply(s, GcBegin), steps), GcEnd).sems == map[]
    ensures Apply(Run(Apply(s, GcBegin), steps), GcEnd).gc.None?
  {
    StepKeepsInv(s, GcBegin);
    DrainingPersists(Apply(s, GcBegin), steps);
  }

  // retain visits all it has to.
  lemma VisitAll(s: State) returns (steps: seq<Step>)
    requires Draining(s)
    ensures GcEnd !in steps && Run(s, steps).gc == Some({})
    decreases |s.gc.value|
  {
    if s.gc.value == {} {
      steps := [];
    } else {
      var region :| region in s.gc.value;
      DrainingStep(s, GcVisit(region));
      var s' := Apply(s, GcVisit(region));
      assert s'.gc.value == s.gc.value - {region};
      var more := VisitAll(s');
      RunOne(s, GcVisit(region));
      RunAppend(s, [GcVisit(region)], more);
      steps := [GcVisit(region)] + more;
    }
  }

  // From every state outside a collection all writes can end, and then one collection leaves
  // nothing behind.
  lemma EverythingCanEnd(s: State) returns (steps: seq<Step>)
    requires Inv(s) && s.maxPermit > 0 && s.gc.None? && s.handles > 0
    ensures var s' := Run(s, steps); Idle(s') && s'.sems == map[] && s'.gc.None?
  {
    var ended := AllWritesEnd(s, |s.tasks|);
    var m := Run(s, ended);
    StepKeepsInv(m, GcBegin);
    var visits := VisitAll(Apply(m, GcBegin));
    OneGcEmptiesTheMap(m, visits);
    DrainingPersists(Apply(m, GcBegin), visits);
    RunOne(m, GcBegin);
    RunAppend(m, [GcBegin], visits);
    RunOneMore(m, [GcBegin] + visits, GcEnd);
    RunAppend(s, ended, [GcBegin] + visits + [GcEnd]);
    steps := ended + ([GcBegin] + visits + [GcEnd]);
  }

  // retain at work: the regions in `todo` have not been looked at; of the others exactly those
  // with a living write are left, with the semaphore they had.
  ghost predicate Sweeping(start: State, s: State, todo: set<nat>) {
    && s == start.(sems := s.sems, gc := Some(todo)) && Inv(s)
    && todo <= s.sems.Keys <= start.sems.Keys
    && (forall r :: r in s.sems ==> s.sems[r] == start.sems[r])
    && (forall r :: r in start.sems && r !in todo ==> (r in s.sems <==> HasWriter(s.tasks, r)))
  }

  lemma SweepOne(start: State, s: State, todo: set<nat>, region: nat)
    requires Sweeping(start, s, todo) && region in todo
    ensures Sweeping(start, Apply(s, GcVisit(region)), todo - {region})
  {
    VisitKeepsExactlyTheBusy(s, region);
    VisitKeepsInv(s, region);
    var s' := Apply(s, GcVisit(region));
    forall r | r in start.sems && r !in todo - {region} ensures r in s'.sems <==> HasWriter(s'.tasks, r) {
      if r != region { assert r in s'.sems <==> r in s.sems; }
    }
  }

  lemma SweepBegins(start: State)
    requires Inv(start) && start.gc.None? && start.handles > 0
    ensures Sweeping(start, Apply(start, GcBegin), start.sems.Keys)
  {
    StepKeepsInv(start, GcBegin);
  }

  lemma SweepEnds(start: State, s: State)
    requires Sweeping(start, s, {})
    ensures Inv(s.(gc := None))
    ensures forall r :: r in s.sems <==> r in start.sems && HasWriter(s.tasks, r)
  {
    StepKeepsInv(s, GcEnd);
  }

  /** The handle itself: each method is one critical section of the source. */
  class Writer {
    const maxPermit: nat
    var sems: map<nat, nat>
    var permits: seq<nat>
    var tasks: seq<Task>
    var handles: nat

    ghost function View(): (s: State)
      reads this
    {
      State(maxPermit, sems, permits, tasks, None, handles)
    }

    constructor ()
      ensures View() == Init(16) && Inv(View())
    {
      maxPermit := MAX_CONCURRENCY_PER_REGION;
      sems, permits, tasks, handles := map[], [], [], 1;
    }

    method Write(region: nat) returns (task: nat)
      requires Inv(View()) && handles > 0
      modifies `sems, `permits, `tasks
      ensures View() == Apply(old(View()), Step.Write(region)) && Inv(View())
      ensures task == |old(tasks)| && tasks[task].phase.Queued? && tasks[task].region == region
    {
      StepKeepsInv(View(), Step.Write(region));
      if region !in sems {
        sems := sems[region := |permits|];
        permits := permits + [maxPermit];
      }
      task := |tasks|;
      tasks := tasks + [Task(region, sems[region], Queued)];
    }

    // retain's test of one entry.
    method RetainEntry(region: nat, ghost s: State)
      requires s.sems == sems && s.tasks == tasks && s.gc.Some? && region in s.gc.value && region in sems
      modifies `sems
      ensures sems == Apply(s, GcVisit(region)).sems
    {
      if 1 + Total(tasks, Alive(sems[region])) <= 1 {
        sems := sems - {region};
      }
    }

    method Retain(ghost start: State) returns (ghost s: State)
      requires start == View() && Sweeping(start, Apply(start, GcBegin), sems.Keys)
      modifies `sems
      ensures Sweeping(start, s, {}) && s.sems == sems
    {
      s := Apply(start, GcBegin);
      var todo := sems.Keys;
      while todo != {}
        invariant Sweeping(start, s, todo) && s.sems == sems
        decreases todo
      {
        var region :| region in todo;
        SweepOne(start, s, todo, region);
        RetainEntry(region, s);
        s := Apply(s, GcVisit(region));
        todo := todo - {region};
      }
    }

    // Returns false, without looking at the map, when this is the last handle.
    method TryGc() returns (again: bool)
      requires Inv(View()) && handles > 0
      modifies `sems
      ensures Inv(View())
      ensures again <==> handles > 1
      ensures !again ==> sems == old(sems)
      ensures again ==> forall r :: r in sems <==> r in old(sems) && HasWriter(tasks, r)
      ensures forall r :: r in sems ==> sems[r] == old(sems[r])
    {
      if handles == 1 {
        return false;
      }
      ghost var start := View();
      SweepBegins(start);
      ghost var s := Retain(start);
      SweepEnds(start, s);
      again := true;
    }
  }
}
