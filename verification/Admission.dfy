/**
 How a coprocessor request is admitted to the read pool: it charges its bytes to the memory quota,
 passes the running-task limit of its priority, runs, and gives both back. Requests interleave at
 the granularity of single atomic loads and updates.
 */
module Admission {
  import opened Wrappers
  import opened Sums

  const PRIORITY_COUNT: nat := 3
  const MAX_MEMORY_ALLOC_SIZE: nat := 0x1_0000_0000_0000
  const ISIZE_MAX: nat := 0x7fff_ffff_ffff_ffff
  const USIZE_RANGE: nat := 0x1_0000_0000_0000_0000

  type Usize = x: int | 0 <= x < USIZE_RANGE

  datatype Phase =
    | Arrived
    | CapacityLoaded(capacity: nat)
    | Estimated(capacity: nat)               // the first comparison passed
    | Charged(capacity: nat, seen: int)      // fetch_add returned `seen`
    | Overdrawn                              // about to take the charge back
    | Granted                                // owns its quota, at the pool's door
    | Cleared                                // passed the limit check, not yet counted
    | TurnedAway                             // pool full, about to drop the quota
    | Running
    | QuotaDropped                           // finished, still counted
    | Finished
    | QuotaExceeded
    | PoolFull

  datatype Request = Request(bytes: Usize, priority: nat, phase: Phase)

  // `peak` is the largest capacity configured so far.
  datatype State = State(
    capacity: nat, peak: nat, inUse: int, maxTasks: nat, gauges: seq<int>, requests: seq<Request>)

  datatype Step = Arrive(bytes: Usize, priority: nat) | Advance(request: nat) | SetCapacity(capacity: nat)

  function AdjustCapacity(capacity: nat): (c: nat) {
    if capacity < ISIZE_MAX then capacity else ISIZE_MAX
  }

  function Init(capacity: nat, maxTasks: nat): (s: State) {
    var c := AdjustCapacity(capacity);
    State(c, c, 0, maxTasks, [0, 0, 0], [])
  }

  // `isize as usize`: a negative value wraps round.
  function AsUsize(x: int): (r: int)
    ensures 0 - ISIZE_MAX <= x <= ISIZE_MAX ==> 0 <= r < USIZE_RANGE && (r == x || r == x + USIZE_RANGE)
  {
    if x < 0 then x + USIZE_RANGE else x
  }

  // The optimistic test of MemoryQuota::alloc. An overdrawn quota passes it by wrap-around and
  // is caught by the second test.
  predicate LooksFree(capacity: nat, inUse: int, bytes: Usize) {
    bytes <= AsUsize(capacity - inUse) && bytes <= MAX_MEMORY_ALLOC_SIZE
  }

  // The phase a request moves to next, given what it reads.
  function NextPhase(s: State, r: Request): (p: Phase)
    requires r.priority < |s.gauges|
  {
    match r.phase
    case Arrived => CapacityLoaded(s.capacity)
    case CapacityLoaded(c) => if LooksFree(c, s.inUse, r.bytes) then Estimated(c) else QuotaExceeded
    case Estimated(c) => Charged(c, s.inUse)
    case Charged(c, seen) => if r.bytes > c - seen then Overdrawn else Granted
    case Overdrawn => QuotaExceeded
    case Granted => if s.gauges[r.priority] >= s.maxTasks then TurnedAway else Cleared
    case Cleared => Running
    case TurnedAway => PoolFull
    case Running => QuotaDropped
    case QuotaDropped => Finished
    case _ => r.phase
  }

  // What the quota counts for a request, and what the gauge of its priority counts.
  predicate Charges(p: Phase) {
    p.Charged? || p.Overdrawn? || p.Granted? || p.Cleared? || p.TurnedAway? || p.Running?
  }

  predicate Counts(p: Phase) {
    p.Running? || p.QuotaDropped?
  }

  // What leaving its phase adds to the quota counter, and to the gauge. An owned quota is given
  // back through free, which ignores oversized amounts.
  function ChargeMade(r: Request): (n: int) {
    if r.phase.Estimated? then r.bytes
    else if r.phase.Overdrawn? then 0 - r.bytes
    else if (r.phase.TurnedAway? || r.phase.Running?) && r.bytes <= MAX_MEMORY_ALLOC_SIZE then 0 - r.bytes
    else 0
  }

  function CountMade(r: Request): (n: int) {
    if r.phase.Cleared? then 1 else if r.phase.QuotaDropped? then -1 else 0
  }

  // One atomic step of any participant.
  function Apply(s: State, step: Step): (s': State) {
    match step
    case Arrive(bytes, priority) =>
      if priority < |s.gauges| then s.(requests := s.requests + [Request(bytes, priority, Arrived)]) else s
    case SetCapacity(capacity) =>
      var c := AdjustCapacity(capacity);
      s.(capacity := c, peak := if c > s.peak then c else s.peak)
    case Advance(i) =>
      if i >= |s.requests| || s.requests[i].priority >= |s.gauges| then s else
      var r := s.requests[i];
      s.(inUse := s.inUse + ChargeMade(r),
         gauges := s.gauges[r.priority := s.gauges[r.priority] + CountMade(r)],
         requests := s.requests[i := r.(phase := NextPhase(s, r))])
  }

  function Run(s: State, steps: seq<Step>): (s': State) {
    if steps == [] then s else Apply(Run(s, steps[..|steps| - 1]), steps[|steps| - 1])
  }

  // ---- accounting ----

  function ChargedBytes(): (w: Request -> nat) {
    (r: Request) => if Charges(r.phase) then r.bytes else 0
  }

  function CountedIn(priority: nat): (w: Request -> nat) {
    (r: Request) => if r.priority == priority && Counts(r.phase) then 1 else 0
  }

  // A request that owns its quota, or is bound to.
  predicate Wins(r: Request) {
    match r.phase
    case Charged(c, seen) => r.bytes <= c - seen
    case Granted => true
    case Cleared => true
    case TurnedAway => true
    case Running => true
    case _ => false
  }

  function WonBytes(): (w: Request -> nat) {
    (r: Request) => if Wins(r) then r.bytes else 0
  }

  function AdmittedBytes(): (w: Request -> nat) {
    (r: Request) => if r.phase.Granted? || r.phase.Cleared? || r.phase.TurnedAway? || r.phase.Running? then r.bytes else 0
  }

  ghost predicate GaugesAgree(s: State) {
    && |s.gauges| == PRIORITY_COUNT
    && forall p :: 0 <= p < PRIORITY_COUNT ==> s.gauges[p] == Total(s.requests, CountedIn(p))
  }

  ghost predicate Capped(s: State) {
    && s.capacity <= s.peak
    && Total(s.requests, WonBytes()) <= s.peak
    && forall i :: 0 <= i < |s.requests| ==> CapacitySeen(s.requests[i].phase) <= s.peak
  }

  function CapacitySeen(p: Phase): (c: nat) {
    match p
    case CapacityLoaded(c) => c
    case Estimated(c) => c
    case Charged(c, _) => c
    case _ => 0
  }

  // A request that charges, or is about to, has passed the size test.
  ghost predicate Sized(s: State) {
    forall i :: 0 <= i < |s.requests| ==> SizeTested(s.requests[i])
  }

  predicate SizeTested(r: Request) {
    Charges(r.phase) || r.phase.Estimated? ==> r.bytes <= MAX_MEMORY_ALLOC_SIZE
  }

  ghost predicate Inv(s: State) {
    s.inUse == Total(s.requests, ChargedBytes()) && GaugesAgree(s) && Capped(s) && Sized(s)
  }

  lemma WonIsCharged(s: State)
    ensures Total(s.requests, WonBytes()) <= Total(s.requests, ChargedBytes())
  {
    TotalMonotone(s.requests, WonBytes(), ChargedBytes());
  }

  lemma AdvanceKeepsAccount(s: State, i: nat)
    requires Inv(s) && i < |s.requests| && s.requests[i].priority < |s.gauges|
    ensures var s' := Apply(s, Advance(i)); s'.inUse == Total(s'.requests, ChargedBytes()) && Sized(s')
  {
    assert SizeTested(s.requests[i]);
    TotalUpdate(s.requests, i, Apply(s, Advance(i)).requests[i], ChargedBytes());
  }

  lemma AdvanceKeepsCap(s: State, i: nat)
    requires Inv(s) && i < |s.requests| && s.requests[i].priority < |s.gauges|
    ensures Capped(Apply(s, Advance(i)))
  {
    TotalUpdate(s.requests, i, Apply(s, Advance(i)).requests[i], WonBytes());
    WonIsCharged(s);
    assert CapacitySeen(s.requests[i].phase) <= s.peak;
  }

  lemma AdvanceKeepsGauges(s: State, i: nat)
    requires Inv(s) && i < |s.requests| && s.requests[i].priority < |s.gauges|
    ensures GaugesAgree(Apply(s, Advance(i)))
  {
    var s' := Apply(s, Advance(i));
    forall p | 0 <= p < PRIORITY_COUNT ensures s'.gauges[p] == Total(s'.requests, CountedIn(p)) {
      TotalUpdate(s.requests, i, s'.requests[i], CountedIn(p));
    }
  }

  lemma ArriveKeepsGauges(s: State, r: Request)
    requires GaugesAgree(s) && r.phase.Arrived?
    ensures GaugesAgree(s.(requests := s.requests + [r]))
  {
    forall p | 0 <= p < PRIORITY_COUNT
      ensures Total(s.requests + [r], CountedIn(p)) == Total(s.requests, CountedIn(p))
    {
      TotalAppend(s.requests, r, CountedIn(p));
    }
  }

  lemma ArriveKeepsCap(s: State, r: Request)
    requires Capped(s) && r.phase.Arrived?
    ensures Capped(s.(requests := s.requests + [r]))
  {
    TotalAppend(s.requests, r, WonBytes());
  }

  lemma ArriveKeepsAccount(s: State, r: Request)
    requires s.inUse == Total(s.requests, ChargedBytes()) && Sized(s) && r.phase.Arrived?
    ensures s.inUse == Total(s.requests + [r], ChargedBytes()) && Sized(s.(requests := s.requests + [r]))
  {
    TotalAppend(s.requests, r, ChargedBytes());
  }

  lemma ArriveKeepsInv(s: State, bytes: Usize, priority: nat)
    requires Inv(s)
    ensures Inv(Apply(s, Arrive(bytes, priority)))
  {
    if priority < |s.gauges| {
      var r := Request(bytes, priority, Arrived);
      ArriveKeepsAccount(s, r);
      ArriveKeepsCap(s, r);
      ArriveKeepsGauges(s, r);
      assert Apply(s, Arrive(bytes, priority)) == s.(requests := s.requests + [r]);
    }
  }

  lemma StepKeepsInv(s: State, step: Step)
    requires Inv(s)
    ensures Inv(Apply(s, step))
  {
    match step {
      case Arrive(bytes, priority) => ArriveKeepsInv(s, bytes, priority);
      case SetCapacity(_) =>
      case Advance(i) =>
        if i < |s.requests| && s.requests[i].priority < |s.gauges| {
          AdvanceKeepsAccount(s, i);
          AdvanceKeepsCap(s, i);
          AdvanceKeepsGauges(s, i);
        }
    }
  }

  lemma {:induction false} RunKeepsInv(capacity: nat, maxTasks: nat, steps: seq<Step>)
    ensures Inv(Run(Init(capacity, maxTasks), steps))
  {
    if steps != [] {
      RunKeepsInv(capacity, maxTasks, steps[..|steps| - 1]);
      StepKeepsInv(Run(Init(capacity, maxTasks), steps[..|steps| - 1]), steps[|steps| - 1]);
    }
  }

  // ---- what every run guarantees ----

  // Memory in use is the bytes of the requests that have charged and not yet released, and each
  // gauge is the number of its tasks that have been spawned and not yet finished.
  lemma ResourcesAreAccounted(capacity: nat, maxTasks: nat, steps: seq<Step>, priority: nat)
    requires priority < PRIORITY_COUNT
    ensures var s := Run(Init(capacity, maxTasks), steps);
      && s.inUse == Total(s.requests, ChargedBytes())
      && |s.gauges| == PRIORITY_COUNT && s.gauges[priority] == Total(s.requests, CountedIn(priority))
  {
    RunKeepsInv(capacity, maxTasks, steps);
  }

  // A capacity is taken as configured, up to isize::MAX.
  lemma CapacityIsConfigured(s: State, capacity: nat, maxTasks: nat)
    ensures var c := Init(capacity, maxTasks).capacity;
      c <= capacity && c <= ISIZE_MAX && (c == capacity || c == ISIZE_MAX) && (capacity <= ISIZE_MAX ==> c == capacity)
    ensures var s' := Apply(s, SetCapacity(capacity));
      && s'.capacity <= capacity && s'.capacity <= ISIZE_MAX && (capacity <= ISIZE_MAX ==> s'.capacity == capacity)
      && s' == s.(capacity := s'.capacity, peak := s'.peak)
  {}

  // The largest capacity that was configured, at the start or on the way.
  function LargestConfigured(capacity: nat, steps: seq<Step>): (c: nat) {
    if steps == [] then capacity
    else
      var before, last := LargestConfigured(capacity, steps[..|steps| - 1]), steps[|steps| - 1];
      if last.SetCapacity? && last.capacity > before then last.capacity else before
  }

  lemma {:induction false} PeakIsConfigured(capacity: nat, maxTasks: nat, steps: seq<Step>)
    ensures Run(Init(capacity, maxTasks), steps).peak <= LargestConfigured(capacity, steps)
    ensures (forall i :: 0 <= i < |steps| ==> !steps[i].SetCapacity?) ==> LargestConfigured(capacity, steps) == capacity
  {
    if steps != [] { PeakIsConfigured(capacity, maxTasks, steps[..|steps| - 1]); }
  }

  // The quota is never oversold: whatever the interleaving, the bytes of admitted requests stay
  // within the largest capacity that was ever configured, and within the capacity itself as long
  // as it is not changed.
  lemma QuotaNeverOversold(capacity: nat, maxTasks: nat, steps: seq<Step>)
    ensures var s := Run(Init(capacity, maxTasks), steps);
      Total(s.requests, AdmittedBytes()) <= s.peak <= LargestConfigured(capacity, steps)
    ensures (forall i :: 0 <= i < |steps| ==> !steps[i].SetCapacity?) ==>
      Total(Run(Init(capacity, maxTasks), steps).requests, AdmittedBytes()) <= capacity
  {
    RunKeepsInv(capacity, maxTasks, steps);
    var s := Run(Init(capacity, maxTasks), steps);
    TotalMonotone(s.requests, AdmittedBytes(), WonBytes());
    PeakIsConfigured(capacity, maxTasks, steps);
  }

  // free is never called with a size it ignores and never drives the counter below zero, so
  // neither of its special branches is taken; the counter is a plain non-negative number.
  lemma FreeNeverUnderflows(capacity: nat, maxTasks: nat, steps: seq<Step>, i: nat)
    ensures Run(Init(capacity, maxTasks), steps).inUse >= 0
    ensures var s := Run(Init(capacity, maxTasks), steps);
      i < |s.requests| && Charges(s.requests[i].phase) ==>
        s.requests[i].bytes <= MAX_MEMORY_ALLOC_SIZE && s.inUse - s.requests[i].bytes >= 0
  {
    RunKeepsInv(capacity, maxTasks, steps);
    var s := Run(Init(capacity, maxTasks), steps);
    if i < |s.requests| {
      TotalAtLeast(s.requests, i, ChargedBytes());
      assert SizeTested(s.requests[i]);
    }
  }

  // A refused request leaves no trace in either resource.
  lemma RefusedHoldsNothing(capacity: nat, maxTasks: nat, steps: seq<Step>)
    ensures var s := Run(Init(capacity, maxTasks), steps);
      (forall i :: 0 <= i < |s.requests| ==>
         s.requests[i].phase.QuotaExceeded? || s.requests[i].phase.PoolFull? || s.requests[i].phase.Finished?) ==>
      s.inUse == 0 && s.gauges == [0, 0, 0]
  {
    RunKeepsInv(capacity, maxTasks, steps);
    var s := Run(Init(capacity, maxTasks), steps);
    if forall i :: 0 <= i < |s.requests| ==>
         s.requests[i].phase.QuotaExceeded? || s.requests[i].phase.PoolFull? || s.requests[i].phase.Finished? {
      TotalZero(s.requests, ChargedBytes());
      forall p | 0 <= p < PRIORITY_COUNT ensures s.gauges[p] == 0 { TotalZero(s.requests, CountedIn(p)); }
    }
  }

  // ---- the running-task limit is not strict, but it is bounded ----

  function ClearedIn(priority: nat): (w: Request -> nat) {
    (r: Request) => if r.priority == priority && r.phase.Cleared? then 1 else 0
  }

  // Never more than n spawners of the priority stand between the check and the increment.
  ghost predicate AtMost(n: nat, priority: nat, s: State, steps: seq<Step>) {
    && Total(Run(s, steps).requests, ClearedIn(priority)) <= n
    && (steps == [] || AtMost(n, priority, s, steps[..|steps| - 1]))
  }

  lemma AdvanceWithin(s: State, i: nat, n: nat, priority: nat)
    requires Inv(s) && n > 0 && priority < PRIORITY_COUNT && i < |s.requests| && s.requests[i].priority < |s.gauges|
    requires s.gauges[priority] + Total(s.requests, ClearedIn(priority)) <= s.maxTasks + n - 1
    requires Total(Apply(s, Advance(i)).requests, ClearedIn(priority)) <= n
    ensures Apply(s, Advance(i)).gauges[priority] + Total(Apply(s, Advance(i)).requests, ClearedIn(priority))
      <= s.maxTasks + n - 1
  {
    TotalUpdate(s.requests, i, Apply(s, Advance(i)).requests[i], ClearedIn(priority));
  }

  lemma StepWithin(s: State, step: Step, n: nat, priority: nat)
    requires Inv(s) && n > 0 && priority < PRIORITY_COUNT
    requires s.gauges[priority] + Total(s.requests, ClearedIn(priority)) <= s.maxTasks + n - 1
    requires Total(Apply(s, step).requests, ClearedIn(priority)) <= n
    ensures |Apply(s, step).gauges| == PRIORITY_COUNT
    ensures Apply(s, step).gauges[priority] + Total(Apply(s, step).requests, ClearedIn(priority)) <= s.maxTasks + n - 1
  {
    match step {
      case Arrive(bytes, p) => TotalAppend(s.requests, Request(bytes, p, Arrived), ClearedIn(priority));
      case SetCapacity(_) =>
      case Advance(i) =>
        if i < |s.requests| && s.requests[i].priority < |s.gauges| { AdvanceWithin(s, i, n, priority); }
    }
  }

  // With at most n concurrent spawners the running tasks of a priority never exceed
  // max_tasks + n - 1; with one spawner the limit is strict.
  lemma {:induction false} LimitOvershoot(capacity: nat, maxTasks: nat, steps: seq<Step>, n: nat, priority: nat)
    requires n > 0 && priority < PRIORITY_COUNT && AtMost(n, priority, Init(capacity, maxTasks), steps)
    ensures var s := Run(Init(capacity, maxTasks), steps);
      && s.maxTasks == maxTasks && |s.gauges| == PRIORITY_COUNT
      && s.gauges[priority] + Total(s.requests, ClearedIn(priority)) <= maxTasks + n - 1
  {
    if steps != [] {
      var front := steps[..|steps| - 1];
      LimitOvershoot(capacity, maxTasks, front, n, priority);
      RunKeepsInv(capacity, maxTasks, front);
      StepWithin(Run(Init(capacity, maxTasks), front), steps[|steps| - 1], n, priority);
    }
  }

  // ---- the machine's counter ----

  // An isize wraps round at its bounds.
  function Wrap(x: int): (r: int)
    ensures 0 - ISIZE_MAX - 1 <= r <= ISIZE_MAX && (x - r) % USIZE_RANGE == 0
  {
    (x + ISIZE_MAX + 1) % USIZE_RANGE - ISIZE_MAX - 1
  }

  function ApplyWrapping(s: State, step: Step): (s': State) {
    var t := Apply(s, step);
    t.(inUse := Wrap(t.inUse))
  }

  function RunWrapping(s: State, steps: seq<Step>): (s': State) {
    if steps == [] then s else ApplyWrapping(RunWrapping(s, steps[..|steps| - 1]), steps[|steps| - 1])
  }

  // A request whose charge stands although it is going to be refused.
  predicate Loses(r: Request) {
    Charges(r.phase) && !Wins(r)
  }

  function LosingOne(): (w: Request -> nat) {
    (r: Request) => if Loses(r) then 1 else 0
  }

  function LosingBytes(): (w: Request -> nat) {
    (r: Request) => if Loses(r) then r.bytes else 0
  }

  function ChargingOne(): (w: Request -> nat) {
    (r: Request) => if Charges(r.phase) then 1 else 0
  }

  // The counter exceeds the capacity at most by what the requests about to be refused have charged.
  lemma CounterBound(s: State)
    requires Inv(s)
    ensures 0 <= s.inUse <= s.peak + Total(s.requests, LosingOne()) * MAX_MEMORY_ALLOC_SIZE
    ensures s.inUse <= Total(s.requests, ChargingOne()) * MAX_MEMORY_ALLOC_SIZE
  {
    forall i | 0 <= i < |s.requests|
      ensures LosingBytes()(s.requests[i]) <= LosingOne()(s.requests[i]) * MAX_MEMORY_ALLOC_SIZE
      ensures ChargedBytes()(s.requests[i]) <= ChargingOne()(s.requests[i]) * MAX_MEMORY_ALLOC_SIZE
    {
      assert SizeTested(s.requests[i]);
    }
    TotalSplit(s.requests, ChargedBytes(), WonBytes(), LosingBytes());
    TotalScaled(s.requests, LosingBytes(), LosingOne(), MAX_MEMORY_ALLOC_SIZE);
    TotalScaled(s.requests, ChargedBytes(), ChargingOne(), MAX_MEMORY_ALLOC_SIZE);
  }

  // Few enough charge at once: fewer than 2^15 requests of any kind, or so few about to be refused
  // that their largest charges fit between the capacity and isize::MAX.
  ghost predicate Moderate(s: State) {
    || Total(s.requests, ChargingOne()) * MAX_MEMORY_ALLOC_SIZE <= ISIZE_MAX
    || s.peak + Total(s.requests, LosingOne()) * MAX_MEMORY_ALLOC_SIZE <= ISIZE_MAX
  }

  ghost predicate AlwaysModerate(s: State, steps: seq<Step>) {
    Moderate(Run(s, steps)) && (steps == [] || AlwaysModerate(s, steps[..|steps| - 1]))
  }

  // Then the counter never wraps round, and the run with the machine's counter is the run above:
  // everything shown of that holds of this one.
  lemma {:induction false} CounterNeverWraps(capacity: nat, maxTasks: nat, steps: seq<Step>)
    requires AlwaysModerate(Init(capacity, maxTasks), steps)
    ensures RunWrapping(Init(capacity, maxTasks), steps) == Run(Init(capacity, maxTasks), steps)
  {
    if steps != [] {
      CounterNeverWraps(capacity, maxTasks, steps[..|steps| - 1]);
      CounterFits(capacity, maxTasks, steps);
    }
  }

  lemma CounterFits(capacity: nat, maxTasks: nat, steps: seq<Step>)
    requires Moderate(Run(Init(capacity, maxTasks), steps))
    ensures var s := Run(Init(capacity, maxTasks), steps); 0 <= s.inUse <= ISIZE_MAX && Wrap(s.inUse) == s.inUse
  {
    RunKeepsInv(capacity, maxTasks, steps);
    CounterBound(Run(Init(capacity, maxTasks), steps));
    WrapFits(Run(Init(capacity, maxTasks), steps).inUse);
  }

  lemma WrapFits(x: int)
    requires 0 <= x <= ISIZE_MAX
    ensures Wrap(x) == x
  {}

  // ---- one request without interference ----

  function Advancing(i: nat): (f: State -> State) {
    (s: State) => Apply(s, Advance(i))
  }

  // k steps of request i while the others stand still.
  function Advanced(s: State, i: nat, k: nat): (s': State) {
    Repeat(Advancing(i), s, k)
  }

  predicate Fits(s: State, bytes: Usize) {
    bytes <= MAX_MEMORY_ALLOC_SIZE && s.inUse + bytes <= s.capacity
  }

  // The state of s with one more request in the given phase, and what that phase has taken.
  function With(s: State, r: Request): (s': State)
    requires r.priority < |s.gauges|
  {
    s.(inUse := s.inUse + (if Charges(r.phase) then r.bytes else 0),
       gauges := s.gauges[r.priority := s.gauges[r.priority] + (if Counts(r.phase) then 1 else 0)],
       requests := s.requests + [r])
  }

  lemma SoloStep(s: State, r: Request)
    requires r.priority < |s.gauges| && SizeTested(r)
    ensures Apply(With(s, r), Advance(|s.requests|)) == With(s, r.(phase := NextPhase(With(s, r), r)))
  {
    var m := With(s, r);
    var r' := r.(phase := NextPhase(m, r));
    assert m.requests[|s.requests| := r'] == s.requests + [r'];
  }

  // One more step of a request on its own.
  lemma SoloOneMore(s: State, r: Request, k: nat, r': Request) returns (more: nat)
    requires r.priority < |s.gauges| && r'.priority == r.priority && SizeTested(r')
    requires Advanced(With(s, r), |s.requests|, k) == With(s, r')
    ensures Advanced(With(s, r), |s.requests|, more) == With(s, r'.(phase := NextPhase(With(s, r'), r')))
  {
    more := k + 1;
    SoloStep(s, r');
  }

  // What a request on its own finds in the quota.
  lemma QuotaPhases(s: State, r: Request)
    requires r.priority < |s.gauges| && s.inUse >= 0
    ensures NextPhase(With(s, r.(phase := Arrived)), r.(phase := Arrived)) == CapacityLoaded(s.capacity)
    ensures NextPhase(With(s, r.(phase := CapacityLoaded(s.capacity))), r.(phase := CapacityLoaded(s.capacity)))
      == if LooksFree(s.capacity, s.inUse, r.bytes) then Estimated(s.capacity) else QuotaExceeded
    ensures NextPhase(With(s, r.(phase := Estimated(s.capacity))), r.(phase := Estimated(s.capacity)))
      == Charged(s.capacity, s.inUse)
    ensures NextPhase(With(s, r.(phase := Charged(s.capacity, s.inUse))), r.(phase := Charged(s.capacity, s.inUse)))
      == if r.bytes > s.capacity - s.inUse then Overdrawn else Granted
    ensures NextPhase(With(s, r.(phase := Overdrawn)), r.(phase := Overdrawn)) == QuotaExceeded
  {}

  // The optimistic test lets every request through that fits; what it lets through by wrap-around
  // is of no undue size.
  lemma LooksFreeIfFits(s: State, bytes: Usize)
    requires 0 <= s.inUse && s.capacity <= ISIZE_MAX
    ensures Fits(s, bytes) ==> LooksFree(s.capacity, s.inUse, bytes)
    ensures LooksFree(s.capacity, s.inUse, bytes) ==> bytes <= MAX_MEMORY_ALLOC_SIZE
  {}

  // In the quota: the wrap-around of the optimistic test never lets an oversized request through.
  lemma SoloQuota(s: State, r: Request) returns (k: nat)
    requires r.priority < |s.gauges| && r.phase.Arrived?
    requires 0 <= s.inUse <= ISIZE_MAX && s.capacity <= ISIZE_MAX
    ensures Advanced(With(s, r), |s.requests|, k)
      == With(s, r.(phase := if Fits(s, r.bytes) then Granted else QuotaExceeded))
  {
    QuotaPhases(s, r);
    LooksFreeIfFits(s, r.bytes);
    k := SoloOneMore(s, r, 0, r);
    k := SoloOneMore(s, r, k, r.(phase := CapacityLoaded(s.capacity)));
    if LooksFree(s.capacity, s.inUse, r.bytes) {
      k := SoloOneMore(s, r, k, r.(phase := Estimated(s.capacity)));
      k := SoloOneMore(s, r, k, r.(phase := Charged(s.capacity, s.inUse)));
      if !Fits(s, r.bytes) {
        k := SoloOneMore(s, r, k, r.(phase := Overdrawn));
      }
    }
  }

  // At the door of the pool.
  lemma SoloSpawn(s: State, r: Request) returns (k: nat)
    requires r.priority < |s.gauges| && r.phase.Granted? && SizeTested(r)
    ensures Advanced(With(s, r), |s.requests|, k)
      == With(s, r.(phase := if s.gauges[r.priority] < s.maxTasks then Running else PoolFull))
  {
    k := SoloOneMore(s, r, 0, r);
    k := SoloOneMore(s, r, k, r.(phase := if s.gauges[r.priority] < s.maxTasks then Cleared else TurnedAway));
  }

  // s with a running request more.
  function Charging(s: State, r: Request): (s': State)
    requires r.priority < |s.gauges|
  {
    s.(inUse := s.inUse + r.bytes, gauges := s.gauges[r.priority := s.gauges[r.priority] + 1], requests := s.requests + [r])
  }

  // What a request takes that is running, or refused.
  lemma WithEnd(s: State, r: Request)
    requires r.priority < |s.gauges|
    ensures r.phase.Running? ==> With(s, r) == Charging(s, r)
    ensures r.phase.QuotaExceeded? || r.phase.PoolFull? ==> With(s, r) == s.(requests := s.requests + [r])
  {
    assert s.gauges[r.priority := s.gauges[r.priority] + 0] == s.gauges;
  }

  // Where a request ends that is left alone.
  function SoloEnd(s: State, r: Request): (end: Phase)
    requires r.priority < |s.gauges|
  {
    if !Fits(s, r.bytes) then QuotaExceeded
    else if s.gauges[r.priority] < s.maxTasks then Running
    else PoolFull
  }

  // Left alone, a request is admitted exactly if it fits the quota and its priority has room; it
  // is refused by the right resource otherwise, and takes nothing.
  lemma SoloOutcome(s: State, r: Request) returns (k: nat)
    requires r.priority < |s.gauges| && r.phase.Arrived?
    requires 0 <= s.inUse <= ISIZE_MAX && s.capacity <= ISIZE_MAX
    ensures Advanced(With(s, r), |s.requests|, k) == With(s, r.(phase := SoloEnd(s, r)))
  {
    k := SoloQuota(s, r);
    if Fits(s, r.bytes) {
      var granted := r.(phase := Granted);
      var further := SoloSpawn(s, granted);
      RepeatFurther(Advancing(|s.requests|), With(s, r), k, With(s, granted), further);
      k := k + further;
    }
  }

  // ---- the bound is reached ----

  // Without any room nothing ever runs.
  lemma {:induction false} NothingRunsAtZero(capacity: nat, steps: seq<Step>)
    ensures var s := Run(Init(capacity, 0), steps);
      && s.maxTasks == 0 && s.gauges == [0, 0, 0]
      && forall i :: 0 <= i < |s.requests| ==> !s.requests[i].phase.Cleared? && !Counts(s.requests[i].phase)
  {
    if steps != [] {
      NothingRunsAtZero(capacity, steps[..|steps| - 1]);
    }
  }

  // k tasks of the first priority run and c spawners stand between check and increment, each
  // with the same quota.
  function Crowd(bytes: Usize, k: nat, c: nat): (rs: seq<Request>) {
    seq(k + c, i => Request(bytes, 0, if i < k then Running else Cleared))
  }

  function Crowded(s: State, bytes: Usize, k: nat, c: nat): (s': State) {
    s.(inUse := (k + c) * bytes, gauges := [k, 0, 0], requests := Crowd(bytes, k, c))
  }

  lemma {:induction false} CrowdCount(bytes: Usize, k: nat, c: nat)
    ensures Total(Crowd(bytes, k, c), ClearedIn(0)) == c
  {
    if c > 0 {
      CrowdCount(bytes, k, c - 1);
      assert Crowd(bytes, k, c)[..k + c - 1] == Crowd(bytes, k, c - 1);
    } else {
      TotalZero(Crowd(bytes, k, 0), ClearedIn(0));
    }
  }

  // `steps` leads from s to t within the bound on spawners.
  ghost predicate Leads(n: nat, s: State, steps: seq<Step>, t: State) {
    AtMost(n, 0, s, steps) && Run(s, steps) == t
  }

  lemma OneMore(n: nat, s: State, steps: seq<Step>, t: State, step: Step) returns (more: seq<Step>)
    requires Leads(n, s, steps, t) && Total(Apply(t, step).requests, ClearedIn(0)) <= n
    ensures Leads(n, s, more, Apply(t, step))
  {
    more := steps + [step];
    assert more[..|steps|] == steps;
  }

  // One step of the last request.
  lemma Proceed(n: nat, s: State, steps: seq<Step>, base: State, r: Request) returns (more: seq<Step>)
    requires r.priority < |base.gauges| && SizeTested(r) && Leads(n, s, steps, With(base, r))
    requires Total(base.requests, ClearedIn(0)) < n
    ensures Leads(n, s, more, With(base, r.(phase := NextPhase(With(base, r), r))))
  {
    SoloStep(base, r);
    TotalAppend(base.requests, r.(phase := NextPhase(With(base, r), r)), ClearedIn(0));
    more := OneMore(n, s, steps, With(base, r), Advance(|base.requests|));
  }

  lemma Charge(n: nat, s: State, steps: seq<Step>, b: State, r: Request) returns (more: seq<Step>)
    requires r.priority < |b.gauges| && b.inUse >= 0 && b.capacity <= ISIZE_MAX
    requires Fits(b, r.bytes) && Total(b.requests, ClearedIn(0)) < n
    requires Leads(n, s, steps, With(b, r.(phase := Arrived)))
    ensures Leads(n, s, more, With(b, r.(phase := Granted)))
  {
    QuotaPhases(b, r);
    LooksFreeIfFits(b, r.bytes);
    more := Proceed(n, s, steps, b, r.(phase := Arrived));
    more := Proceed(n, s, more, b, r.(phase := CapacityLoaded(b.capacity)));
    more := Proceed(n, s, more, b, r.(phase := Estimated(b.capacity)));
    more := Proceed(n, s, more, b, r.(phase := Charged(b.capacity, b.inUse)));
  }

  lemma ArriveIsWith(b: State, r: Request)
    requires r.priority < |b.gauges| && r.phase.Arrived?
    ensures Apply(b, Arrive(r.bytes, r.priority)) == With(b, r)
  {
    assert b.gauges[r.priority := b.gauges[r.priority]] == b.gauges;
  }

  lemma Enter(n: nat, s: State, steps: seq<Step>, b: State, r: Request) returns (more: seq<Step>)
    requires r.priority < |b.gauges| && b.inUse >= 0 && b.capacity <= ISIZE_MAX
    requires Fits(b, r.bytes) && Total(b.requests, ClearedIn(0)) < n
    requires Leads(n, s, steps, b)
    ensures Leads(n, s, more, With(b, r.(phase := Granted)))
  {
    ArriveIsWith(b, r.(phase := Arrived));
    TotalAppend(b.requests, r.(phase := Arrived), ClearedIn(0));
    more := OneMore(n, s, steps, b, Arrive(r.bytes, r.priority));
    more := Charge(n, s, more, b, r);
  }

  lemma CrowdGrows(base: State, bytes: Usize, k: nat, c: nat)
    ensures With(Crowded(base, bytes, k, c), Request(bytes, 0, Cleared)) == Crowded(base, bytes, k, c + 1)
  {
    assert Crowd(bytes, k, c) + [Request(bytes, 0, Cleared)] == Crowd(bytes, k, c + 1);
    assert (k + c) * bytes + bytes == (k + c + 1) * bytes;
    assert [k as int, 0, 0][0 := k] == [k, 0, 0];
  }

  lemma CrowdHasRoom(base: State, bytes: Usize, k: nat, c: nat)
    requires k < base.maxTasks && bytes <= MAX_MEMORY_ALLOC_SIZE && (k + c + 1) * bytes <= base.capacity
    ensures var b, r := Crowded(base, bytes, k, c), Request(bytes, 0, Granted);
      b.inUse >= 0 && Fits(b, bytes) && NextPhase(With(b, r), r) == Cleared
  {
    assert (k + c) * bytes + bytes == (k + c + 1) * bytes;
  }

  // One more spawner passes the check.
  lemma Clear(n: nat, s: State, steps: seq<Step>, base: State, bytes: Usize, k: nat, c: nat) returns (more: seq<Step>)
    requires Leads(n, s, steps, Crowded(base, bytes, k, c))
    requires base.capacity <= ISIZE_MAX && k < base.maxTasks && c < n && bytes <= MAX_MEMORY_ALLOC_SIZE
    requires (k + c + 1) * bytes <= base.capacity
    ensures Leads(n, s, more, Crowded(base, bytes, k, c + 1))
  {
    var b, r := Crowded(base, bytes, k, c), Request(bytes, 0, Granted);
    CrowdCount(bytes, k, c);
    CrowdHasRoom(base, bytes, k, c);
    more := Enter(n, s, steps, b, r);
    more := Proceed(n, s, more, b, r);
    CrowdGrows(base, bytes, k, c);
  }

  lemma CrowdMoves(base: State, bytes: Usize, k: nat, c: nat)
    requires 0 < c
    ensures Apply(Crowded(base, bytes, k, c), Advance(k)) == Crowded(base, bytes, k + 1, c - 1)
  {
    assert Crowd(bytes, k, c)[k := Request(bytes, 0, Running)] == Crowd(bytes, k + 1, c - 1);
    assert [k as int, 0, 0][0 := k + 1] == [k + 1, 0, 0];
  }

  // One of the spawners counts its task.
  lemma Count(n: nat, s: State, steps: seq<Step>, base: State, bytes: Usize, k: nat, c: nat) returns (more: seq<Step>)
    requires Leads(n, s, steps, Crowded(base, bytes, k, c)) && 0 < c <= n
    ensures Leads(n, s, more, Crowded(base, bytes, k + 1, c - 1))
  {
    CrowdCount(bytes, k + 1, c - 1);
    CrowdMoves(base, bytes, k, c);
    more := OneMore(n, s, steps, Crowded(base, bytes, k, c), Advance(k));
  }

  lemma AdmitOneByOne(n: nat, s: State, bytes: Usize, k: nat) returns (steps: seq<Step>)
    requires n > 0 && s.capacity <= ISIZE_MAX && k < s.maxTasks && Crowded(s, bytes, 0, 0) == s
    requires bytes <= MAX_MEMORY_ALLOC_SIZE && k * bytes <= s.capacity
    ensures Leads(n, s, steps, Crowded(s, bytes, k, 0))
  {
    if k == 0 {
      steps := [];
      CrowdCount(bytes, 0, 0);
    } else {
      assert (k - 1) * bytes <= k * bytes;
      steps := AdmitOneByOne(n, s, bytes, k - 1);
      steps := Clear(n, s, steps, s, bytes, k - 1, 0);
      steps := Count(n, s, steps, s, bytes, k - 1, 1);
    }
  }

  lemma ClearAll(n: nat, s: State, steps: seq<Step>, bytes: Usize, k: nat, c: nat) returns (more: seq<Step>)
    requires Leads(n, s, steps, Crowded(s, bytes, k, 0)) && s.capacity <= ISIZE_MAX && k < s.maxTasks && c <= n
    requires bytes <= MAX_MEMORY_ALLOC_SIZE && (k + c) * bytes <= s.capacity
    ensures Leads(n, s, more, Crowded(s, bytes, k, c))
  {
    if c == 0 {
      more := steps;
    } else {
      assert (k + (c - 1)) * bytes <= (k + c) * bytes;
      more := ClearAll(n, s, steps, bytes, k, c - 1);
      more := Clear(n, s, more, s, bytes, k, c - 1);
    }
  }

  lemma CountAll(n: nat, s: State, steps: seq<Step>, bytes: Usize, k: nat, c: nat) returns (more: seq<Step>)
    requires Leads(n, s, steps, Crowded(s, bytes, k, c)) && c <= n
    ensures Leads(n, s, more, Crowded(s, bytes, k + c, 0))
    decreases c
  {
    if c == 0 {
      more := steps;
    } else {
      more := Count(n, s, steps, s, bytes, k, c);
      more := CountAll(n, s, more, bytes, k + 1, c - 1);
    }
  }

  // For every limit above zero, every number of spawners and requests of any size that the quota
  // has room for, some run does reach max_tasks + n - 1.
  lemma OvershootIsReached(capacity: nat, maxTasks: nat, n: nat, bytes: Usize) returns (steps: seq<Step>)
    requires n > 0 && maxTasks > 0
    requires bytes <= MAX_MEMORY_ALLOC_SIZE && (maxTasks + n - 1) * bytes <= AdjustCapacity(capacity)
    ensures AtMost(n, 0, Init(capacity, maxTasks), steps)
    ensures Run(Init(capacity, maxTasks), steps).gauges == [maxTasks + n - 1, 0, 0]
    ensures Run(Init(capacity, maxTasks), steps).inUse == (maxTasks + n - 1) * bytes
  {
    var s := Init(capacity, maxTasks);
    assert Crowd(bytes, 0, 0) == [];
    assert (maxTasks - 1) * bytes <= (maxTasks + n - 1) * bytes;
    steps := AdmitOneByOne(n, s, bytes, maxTasks - 1);
    steps := ClearAll(n, s, steps, bytes, maxTasks - 1, n);
    steps := CountAll(n, s, steps, bytes, maxTasks - 1, n);
  }

  // ---- the object ----

  datatype Refusal = MemoryQuotaExceeded | MaxPendingTasksExceeded

  function EndOf(r: Result<(), Refusal>): (p: Phase) {
    if r.Ok? then Running else if r.error.MemoryQuotaExceeded? then QuotaExceeded else PoolFull
  }

  // The quota refuses what does not fit or is larger than 2^48 bytes, the pool what finds its
  // priority at the limit; what is admitted takes both, and what is refused takes nothing.
  ghost predicate Decided(before: State, after: State, bytes: Usize, priority: nat, r: Result<(), Refusal>) {
    && priority < |before.gauges|
    && (r == Err(MemoryQuotaExceeded) <==> bytes > 0x1_0000_0000_0000 || before.inUse + bytes > before.capacity)
    && (r == Ok(()) <==> r != Err(MemoryQuotaExceeded) && before.gauges[priority] < before.maxTasks)
    && after.inUse == before.inUse + (if r.Ok? then bytes else 0)
    && after.gauges == before.gauges[priority := before.gauges[priority] + (if r.Ok? then 1 else 0)]
  }

  class ReadPool {
    var capacity: nat
    var inUse: int
    const maxTasks: nat
    var gauges: seq<int>
    ghost var peak: nat
    ghost var requests: seq<Request>

    ghost function View(): (s: State)
      reads this
    {
      State(capacity, peak, inUse, maxTasks, gauges, requests)
    }

    ghost predicate Valid()
      reads this
    {
      Inv(View()) && capacity <= ISIZE_MAX && inUse <= ISIZE_MAX
    }

    constructor (capacity: nat, maxTasks: nat)
      ensures View() == Init(capacity, maxTasks) && Valid()
      ensures this.capacity == (if capacity <= ISIZE_MAX then capacity else ISIZE_MAX) && this.maxTasks == maxTasks
      ensures inUse == 0 && gauges == [0, 0, 0]
    {
      this.capacity, this.maxTasks := AdjustCapacity(capacity), maxTasks;
      inUse, gauges := 0, [0, 0, 0];
      peak, requests := AdjustCapacity(capacity), [];
      new;
      RunKeepsInv(capacity, maxTasks, []);
    }

    method Alloc(bytes: Usize) returns (ok: bool)
      requires capacity <= ISIZE_MAX && 0 <= inUse <= ISIZE_MAX
      modifies `inUse
      ensures ok <==> bytes <= MAX_MEMORY_ALLOC_SIZE && old(inUse) + bytes <= capacity
      ensures inUse == old(inUse) + (if ok then bytes else 0)
    {
      if bytes > AsUsize(capacity - inUse) || bytes > MAX_MEMORY_ALLOC_SIZE {
        return false;
      }
      var seen := inUse;
      inUse := inUse + bytes;
      if bytes > capacity - seen {
        inUse := inUse - bytes;
        return false;
      }
      ok := true;
    }

    // A release that would drive the counter below zero stops at zero; a size that no
    // allocation can have is ignored.
    method Free(bytes: Usize)
      requires 0 <= inUse
      modifies `inUse
      ensures bytes <= MAX_MEMORY_ALLOC_SIZE ==> inUse == (if bytes <= old(inUse) then old(inUse) - bytes else 0)
      ensures bytes > MAX_MEMORY_ALLOC_SIZE ==> inUse == old(inUse)
    {
      if bytes > MAX_MEMORY_ALLOC_SIZE {
        return;
      }
      inUse := inUse - bytes;
      var left := inUse;
      if left < 0 {
        inUse := inUse + (if 0 - left < bytes then 0 - left else bytes);
      }
    }

    method Spawn(priority: nat) returns (ok: bool)
      requires priority < |gauges|
      modifies `gauges
      ensures ok <==> old(gauges)[priority] < maxTasks
      ensures gauges == (if ok then old(gauges)[priority := old(gauges)[priority] + 1] else old(gauges))
    {
      ok := gauges[priority] < maxTasks;
      if ok {
        gauges := gauges[priority := gauges[priority] + 1];
      }
    }

    // Takes both resources or neither.
    method TakeBoth(bytes: Usize, priority: nat) returns (r: Result<(), Refusal>)
      requires capacity <= ISIZE_MAX && 0 <= inUse <= ISIZE_MAX && priority < |gauges|
      modifies `inUse, `gauges
      ensures r.Ok? ==>
        inUse == old(inUse) + bytes && gauges == old(gauges)[priority := old(gauges)[priority] + 1]
      ensures r.Err? ==> inUse == old(inUse) && gauges == old(gauges)
      ensures r == Err(MemoryQuotaExceeded) <==> bytes > MAX_MEMORY_ALLOC_SIZE || old(inUse) + bytes > capacity
      ensures r == Ok(()) <==>
        bytes <= MAX_MEMORY_ALLOC_SIZE && old(inUse) + bytes <= capacity && old(gauges)[priority] < maxTasks
      ensures r == Err(MaxPendingTasksExceeded) <==>
        bytes <= MAX_MEMORY_ALLOC_SIZE && old(inUse) + bytes <= capacity && old(gauges)[priority] >= maxTasks
    {
      var granted := Alloc(bytes);
      if !granted {
        return Err(MemoryQuotaExceeded);
      }
      var spawned := Spawn(priority);
      if !spawned {
        Free(bytes);
        return Err(MaxPendingTasksExceeded);
      }
      r := Ok(());
    }

    method Admit(bytes: Usize, priority: nat) returns (r: Result<(), Refusal>, ghost k: nat)
      requires capacity <= ISIZE_MAX && 0 <= inUse <= ISIZE_MAX && priority < |gauges|
      modifies `inUse, `gauges, `requests
      ensures View() == Advanced(Apply(old(View()), Arrive(bytes, priority)), |old(requests)|, k)
      ensures requests == old(requests) + [Request(bytes, priority, EndOf(r))] && inUse <= ISIZE_MAX
      ensures Decided(old(View()), View(), bytes, priority, r)
    {
      ghost var before, arrived := View(), Request(bytes, priority, Arrived);
      k := SoloOutcome(before, arrived);
      ArriveIsWith(before, arrived);
      r := TakeBoth(bytes, priority);
      WithEnd(before, Request(bytes, priority, EndOf(r)));
      requests := requests + [Request(bytes, priority, EndOf(r))];
    }

    // Admission of a request that brings `ownBytes` bytes and a future of the given
    // size: a request's steps taken at one go.
    method SpawnWithMemoryQuotaCheck(ownBytes: Usize, futureSize: Usize, priority: nat)
      returns (r: Result<(), Refusal>, ghost k: nat)
      requires Valid() && priority < PRIORITY_COUNT && ownBytes + futureSize < USIZE_RANGE
      modifies `inUse, `gauges, `requests
      ensures Valid()
      ensures View() == Advanced(Apply(old(View()), Arrive(ownBytes + futureSize, priority)), |old(requests)|, k)
      ensures requests == old(requests) + [Request(ownBytes + futureSize, priority, EndOf(r))]
      ensures Decided(old(View()), View(), ownBytes + futureSize, priority, r)
    {
      ghost var before := View();
      r, k := Admit(ownBytes + futureSize, priority);
      ArrivedKeepsInv(before, ownBytes + futureSize, priority, k);
    }

    // The end of a task: its quota goes first, its place in the gauge after that.
    method Complete(ghost i: nat, bytes: Usize, priority: nat)
      requires Valid() && i < |requests| && requests[i] == Request(bytes, priority, Running) && priority < PRIORITY_COUNT
      modifies `inUse, `gauges, `requests
      ensures Valid() && View() == Advanced(old(View()), i, 2)
      ensures |requests| == |old(requests)| && requests[i].phase.Finished?
    {
      RunningOwns(View(), i);
      Completed(View(), i);
      AdvancedKeepsInv(View(), i, 2);
      Free(bytes);
      gauges := gauges[priority := gauges[priority] - 1];
      requests := requests[i := requests[i].(phase := Finished)];
    }
  }

  lemma {:induction false} AdvancedKeepsInv(s: State, i: nat, k: nat)
    requires Inv(s)
    ensures Inv(Advanced(s, i, k))
  {
    if k > 0 {
      AdvancedKeepsInv(s, i, k - 1);
      StepKeepsInv(Advanced(s, i, k - 1), Advance(i));
    }
  }

  lemma ArrivedKeepsInv(s: State, bytes: Usize, priority: nat, k: nat)
    requires Inv(s)
    ensures Inv(Advanced(Apply(s, Arrive(bytes, priority)), |s.requests|, k))
  {
    StepKeepsInv(s, Arrive(bytes, priority));
    AdvancedKeepsInv(Apply(s, Arrive(bytes, priority)), |s.requests|, k);
  }

  // A running task owns what free is called with.
  lemma RunningOwns(s: State, i: nat)
    requires Inv(s) && i < |s.requests| && s.requests[i].phase.Running?
    ensures s.requests[i].bytes <= MAX_MEMORY_ALLOC_SIZE && s.requests[i].bytes <= s.inUse
  {
    assert SizeTested(s.requests[i]);
    TotalAtLeast(s.requests, i, ChargedBytes());
  }

  lemma Completed(s: State, i: nat)
    requires i < |s.requests| && s.requests[i].phase.Running? && s.requests[i].priority < |s.gauges|
    requires s.requests[i].bytes <= MAX_MEMORY_ALLOC_SIZE
    ensures var r := s.requests[i];
      Advanced(s, i, 2) == s.(inUse := s.inUse - r.bytes,
                              gauges := s.gauges[r.priority := s.gauges[r.priority] - 1],
                              requests := s.requests[i := r.(phase := Finished)])
  {
    var m := Apply(s, Advance(i));
    assert Advanced(s, i, 1) == m;
    DropQuotaStep(s, i);
    FinishStep(m, i);
  }

  lemma DropQuotaStep(s: State, i: nat)
    requires i < |s.requests| && s.requests[i].phase.Running? && s.requests[i].priority < |s.gauges|
    requires s.requests[i].bytes <= MAX_MEMORY_ALLOC_SIZE
    ensures var r := s.requests[i];
      Apply(s, Advance(i)) == s.(inUse := s.inUse - r.bytes, requests := s.requests[i := r.(phase := QuotaDropped)])
  {
    var r := s.requests[i];
    assert s.gauges[r.priority := s.gauges[r.priority] + 0] == s.gauges;
  }

  lemma FinishStep(s: State, i: nat)
    requires i < |s.requests| && s.requests[i].phase.QuotaDropped? && s.requests[i].priority < |s.gauges|
    ensures var r := s.requests[i];
      Apply(s, Advance(i)) ==
      s.(gauges := s.gauges[r.priority := s.gauges[r.priority] - 1], requests := s.requests[i := r.(phase := Finished)])
  {}
}
