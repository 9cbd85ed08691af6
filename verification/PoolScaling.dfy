/**
 The unified read pool's size: the handle that scales it, and the runner that applies
 configuration changes and adjusts it to the load on a timer.
 */
module PoolScaling {
  import opened Wrappers

  const USIZE_MAX: nat := 0xffff_ffff_ffff_ffff
  const HIGH_THRESHOLD: real := 0.8
  const LOW_THRESHOLD: real := 0.7
  const RUNNING_TASKS_PER_THREAD_THRESHOLD: int := 3

  type Threads = n: nat | n >= 1 witness 1

  // What a timer tick measures; `processCpu` is None when it cannot be read.
  datatype Load = Load(poolCpu: real, runningTasks: int, processCpu: Option<real>, cpuQuota: real)

  datatype Event = PoolSize(threads: Threads) | AutoAdjust(on: bool) | MaxTasksPerWorker(limit: nat) | Tick(load: Load)

  // `perWorker` remembers the per-worker limit that was configured last.
  datatype Pool = Pool(
    poolSize: Threads, maxTasks: nat, core: Threads, max: nat, cur: Threads, auto: bool, perWorker: nat)

  function Max(a: nat, b: nat): (r: nat) {
    if a >= b then a else b
  }

  function SaturatingMul(a: nat, b: nat): (r: nat) {
    if a * b <= USIZE_MAX then a * b else USIZE_MAX
  }

  function Init(threads: Threads, max: nat, auto: bool, perWorker: nat): (p: Pool) {
    Pool(threads, SaturatingMul(perWorker, threads), threads, max, threads, auto, perWorker)
  }

  function Scaled(p: Pool, n: Threads): (r: Pool) {
    p.(maxTasks := SaturatingMul(p.maxTasks / p.poolSize, n), poolSize := n, cur := n)
  }

  predicate WantsOut(cur: Threads, max: nat, load: Load) {
    && load.processCpu.Some?
    && cur < max
    && load.processCpu.value * (cur as real + 1.0) / (cur as real) < load.cpuQuota
    && load.poolCpu > cur as real * HIGH_THRESHOLD
    && load.runningTasks > cur * RUNNING_TASKS_PER_THREAD_THRESHOLD
  }

  predicate WantsIn(cur: Threads, core: Threads, load: Load) {
    && load.processCpu.Some?
    && cur > core
    && load.poolCpu < (cur - 1) as real * LOW_THRESHOLD
    && load.runningTasks < cur * RUNNING_TASKS_PER_THREAD_THRESHOLD
  }

  function Ticked(p: Pool, load: Load): (r: Pool) {
    if !p.auto || (p.cur == p.max && p.core == p.max) then p
    else if WantsOut(p.cur, p.max, load) then Scaled(p, p.cur + 1)
    else if WantsIn(p.cur, p.core, load) then Scaled(p, p.cur - 1)
    else p
  }

  function Apply(p: Pool, e: Event): (r: Pool) {
    match e
    case PoolSize(n) => if n != p.core then Scaled(p, n).(core := n) else p
    case AutoAdjust(on) =>
      if !on && p.cur != p.core then Scaled(p, p.core).(auto := on) else p.(auto := on)
    case MaxTasksPerWorker(n) => p.(maxTasks := SaturatingMul(n, p.poolSize), perWorker := n)
    case Tick(load) => Ticked(p, load)
  }

  function Run(p: Pool, events: seq<Event>): (r: Pool) {
    if events == [] then p else Apply(Run(p, events[..|events| - 1]), events[|events| - 1])
  }

  // ---- what every run keeps ----

  ghost predicate Inv(p: Pool) {
    && p.poolSize == p.cur
    && p.core <= p.cur <= Max(p.core, p.max)
    && (!p.auto ==> p.cur == p.core)
  }

  lemma {:induction false} SizesAgree(threads: Threads, max: nat, auto: bool, perWorker: nat, events: seq<Event>)
    ensures Inv(Run(Init(threads, max, auto, perWorker), events))
  {
    if events != [] {
      SizesAgree(threads, max, auto, perWorker, events[..|events| - 1]);
    }
  }

  lemma DivisionRecovers(w: nat, size: Threads)
    ensures w * size / size == w
  {
    var q, r := w * size / size, w * size % size;
    assert (w - q) * size == r;
    if w > q { MulMonotone(1, w - q, size); }
  }

  // The running-task limit divides exactly as long as the product fits.
  ghost predicate Fits(p: Pool) {
    p.perWorker * p.poolSize <= USIZE_MAX
  }

  ghost predicate AlwaysFits(p: Pool, events: seq<Event>) {
    Fits(Run(p, events)) && (events == [] || AlwaysFits(p, events[..|events| - 1]))
  }

  lemma ScaledLimit(p: Pool, n: Threads)
    requires p.maxTasks == p.perWorker * p.poolSize
    ensures Scaled(p, n).maxTasks == SaturatingMul(p.perWorker, n)
  {
    DivisionRecovers(p.perWorker, p.poolSize);
  }

  lemma StepKeepsLimit(p: Pool, e: Event)
    requires Fits(p) && p.maxTasks == p.perWorker * p.poolSize
    ensures Apply(p, e).maxTasks == SaturatingMul(Apply(p, e).perWorker, Apply(p, e).poolSize)
  {
    match e {
      case PoolSize(n) => ScaledLimit(p, n);
      case AutoAdjust(_) => ScaledLimit(p, p.core);
      case MaxTasksPerWorker(_) =>
      case Tick(load) =>
        ScaledLimit(p, p.cur + 1);
        if p.cur > 1 { ScaledLimit(p, p.cur - 1); }
    }
  }

  // What was configured last: the per-worker limit, the number of threads, and auto adjustment.
  function LastLimit(perWorker: nat, events: seq<Event>): (w: nat) {
    if events == [] then perWorker
    else if events[|events| - 1].MaxTasksPerWorker? then events[|events| - 1].limit
    else LastLimit(perWorker, events[..|events| - 1])
  }

  function LastSize(threads: Threads, events: seq<Event>): (n: Threads) {
    if events == [] then threads
    else if events[|events| - 1].PoolSize? then events[|events| - 1].threads
    else LastSize(threads, events[..|events| - 1])
  }

  function LastAuto(auto: bool, events: seq<Event>): (on: bool) {
    if events == [] then auto
    else if events[|events| - 1].AutoAdjust? then events[|events| - 1].on
    else LastAuto(auto, events[..|events| - 1])
  }

  // Configuration is followed: it takes effect at once and stays until the next of its kind.
  lemma {:induction false} ConfigurationIsFollowed(threads: Threads, max: nat, auto: bool, perWorker: nat, events: seq<Event>)
    ensures var p := Run(Init(threads, max, auto, perWorker), events);
      && p.perWorker == LastLimit(perWorker, events) && p.core == LastSize(threads, events)
      && p.auto == LastAuto(auto, events) && p.max == max
      && (!LastAuto(auto, events) ==> p.poolSize == LastSize(threads, events))
      && (events != [] && events[|events| - 1].PoolSize? ==> p.core == events[|events| - 1].threads)
      && (events != [] && events[|events| - 1].MaxTasksPerWorker? ==>
            p.maxTasks == SaturatingMul(events[|events| - 1].limit, p.poolSize))
  {
    SizesAgree(threads, max, auto, perWorker, events);
    if events != [] {
      ConfigurationIsFollowed(threads, max, auto, perWorker, events[..|events| - 1]);
    }
  }

  // Through any mix of resizing, ticks and reconfiguration the running-task limit is the last configured
  // per-worker limit times the number of threads.
  lemma {:induction false} LimitFollowsSize(threads: Threads, max: nat, auto: bool, perWorker: nat, events: seq<Event>)
    requires AlwaysFits(Init(threads, max, auto, perWorker), events)
    ensures var p := Run(Init(threads, max, auto, perWorker), events);
      p.maxTasks == p.perWorker * p.poolSize == LastLimit(perWorker, events) * p.poolSize
  {
    ConfigurationIsFollowed(threads, max, auto, perWorker, events);
    if events != [] {
      LimitFollowsSize(threads, max, auto, perWorker, events[..|events| - 1]);
      StepKeepsLimit(Run(Init(threads, max, auto, perWorker), events[..|events| - 1]), events[|events| - 1]);
    }
  }

  // Once the product has saturated the per-worker limit may be forgotten. From any state whose
  // limit is the per-worker one times the threads, as after start-up and after each configuration
  // of it, scaling gives the limit of the new number of threads exactly under this condition.
  lemma ScalingKeepsLimitIff(p: Pool, n: Threads)
    requires p.maxTasks == SaturatingMul(p.perWorker, p.poolSize)
    ensures Scaled(p, n).maxTasks == SaturatingMul(p.perWorker, n)
      <==> p.perWorker * p.poolSize <= USIZE_MAX || (USIZE_MAX / p.poolSize) * n >= USIZE_MAX
  {
    var s, w := p.poolSize, p.perWorker;
    if w * s <= USIZE_MAX {
      DivisionRecovers(w, s);
    } else {
      var q := USIZE_MAX / s;
      assert q < w by {
        if w <= q { MulMonotone(w, q, s); }
      }
      MulMonotone(q + 1, w, n);
      assert (q + 1) * n == q * n + n;
    }
  }

  lemma MulMonotone(a: nat, b: nat, c: nat)
    requires a <= b
    ensures a * c <= b * c
  {}

  // "Unlimited" written as the largest signed number: four threads scaled to one keep half of it.
  lemma SaturationForgetsTheLimit()
    ensures var p := Init(4, 8, false, 0x7fff_ffff_ffff_ffff);
      p.perWorker == 0x7fff_ffff_ffff_ffff && Apply(p, PoolSize(1)).maxTasks == 0x3fff_ffff_ffff_ffff
  {}

  // ---- auto adjustment ----

  // A tick adds a thread exactly if all threads are busy, tasks are waiting and the CPU has room;
  // it takes one away exactly if the others could do the work and few tasks are waiting.
  lemma TickIff(p: Pool, load: Load)
    requires Inv(p)
    ensures p.cur - 1 <= Ticked(p, load).cur <= p.cur + 1
    ensures Ticked(p, load).cur == p.cur + 1 <==>
      && p.auto && load.processCpu.Some? && p.cur < p.max
      && load.processCpu.value * (p.cur as real + 1.0) / (p.cur as real) < load.cpuQuota
      && load.poolCpu > p.cur as real * 0.8 && load.runningTasks > 3 * p.cur
    ensures Ticked(p, load).cur == p.cur - 1 <==>
      && p.auto && load.processCpu.Some? && p.cur > p.core
      && load.poolCpu < (p.cur - 1) as real * 0.7 && load.runningTasks < 3 * p.cur
  {}

  // ---- it settles ----

  function Ticks(p: Pool, load: Load, k: nat): (r: Pool) {
    if k == 0 then p else Ticked(Ticks(p, load, k - 1), load)
  }

  // A tick in one direction is never followed by one in the other while the load is the same.
  lemma NoReversal(p: Pool, load: Load)
    requires Inv(p)
    ensures Ticked(p, load).cur > p.cur ==> Ticked(Ticked(p, load), load).cur >= Ticked(p, load).cur
    ensures Ticked(p, load).cur < p.cur ==> Ticked(Ticked(p, load), load).cur <= Ticked(p, load).cur
  {}

  // Growing: as long as the size still changes it changes by one thread a tick.
  lemma {:induction false} Grows(p: Pool, load: Load, k: nat)
    requires Inv(p) && Ticked(p, load).cur > p.cur
    ensures var q := Ticks(p, load, k);
      && Inv(q) && q.core == p.core && q.max == p.max && q.auto
      && p.cur <= q.cur <= p.cur + k && Ticked(q, load).cur >= q.cur
      && (Ticked(q, load) != q ==> q.cur == p.cur + k)
  {
    if k > 0 {
      Grows(p, load, k - 1);
      NoReversal(Ticks(p, load, k - 1), load);
    }
  }

  lemma {:induction false} Shrinks(p: Pool, load: Load, k: nat)
    requires Inv(p) && Ticked(p, load).cur < p.cur
    ensures var q := Ticks(p, load, k);
      && Inv(q) && q.core == p.core && q.max == p.max && q.auto
      && p.cur - k <= q.cur <= p.cur && Ticked(q, load).cur <= q.cur
      && (Ticked(q, load) != q ==> q.cur == p.cur - k)
  {
    if k > 0 {
      Shrinks(p, load, k - 1);
      NoReversal(Ticks(p, load, k - 1), load);
    }
  }

  lemma {:induction false} StaysPut(p: Pool, load: Load, k: nat)
    requires Ticked(p, load) == p
    ensures Ticks(p, load, k) == p
  {
    if k > 0 { StaysPut(p, load, k - 1); }
  }

  // Under a constant load the size moves in one direction only ...
  lemma OneDirection(p: Pool, load: Load, j: nat, k: nat)
    requires Inv(p) && j <= k
    ensures Ticked(p, load).cur >= p.cur ==> Ticks(p, load, j).cur <= Ticks(p, load, k).cur
    ensures Ticked(p, load).cur <= p.cur ==> Ticks(p, load, j).cur >= Ticks(p, load, k).cur
    decreases k - j
  {
    if j < k {
      OneDirection(p, load, j + 1, k);
      if Ticked(p, load).cur > p.cur { Grows(p, load, j); }
      else if Ticked(p, load).cur < p.cur { Shrinks(p, load, j); }
      else { StaysPut(p, load, j); StaysPut(p, load, j + 1); }
    }
  }

  // ... and is at rest after at most max(core, max) - core ticks.
  lemma Settles(p: Pool, load: Load, k: nat)
    requires Inv(p) && k >= Max(p.core, p.max) - p.core
    ensures Ticked(Ticks(p, load, k), load) == Ticks(p, load, k)
  {
    if Ticked(p, load).cur > p.cur { Grows(p, load, k); }
    else if Ticked(p, load).cur < p.cur { Shrinks(p, load, k); }
    else { StaysPut(p, load, k); }
  }

  lemma TickTells(p: Pool, load: Load)
    ensures Ticked(p, load).cur > p.cur ==> WantsOut(p.cur, p.max, load) && Ticked(p, load).cur == p.cur + 1
    ensures Ticked(p, load).cur < p.cur ==> WantsIn(p.cur, p.core, load) && Ticked(p, load).cur == p.cur - 1
  {}

  // A size is passed on the way out only if the load wanted more threads there, and on the way in
  // only if it wanted fewer; so the resting size is the first one the load is content with.
  lemma {:induction false} PassedOutwards(p: Pool, load: Load, k: nat, c: Threads)
    requires Inv(p) && Ticked(p, load).cur > p.cur && p.cur <= c < Ticks(p, load, k).cur
    ensures WantsOut(c, p.max, load)
  {
    Grows(p, load, k - 1);
    TickTells(Ticks(p, load, k - 1), load);
    if c < Ticks(p, load, k - 1).cur { PassedOutwards(p, load, k - 1, c); }
  }

  lemma {:induction false} PassedInwards(p: Pool, load: Load, k: nat, c: Threads)
    requires Inv(p) && Ticked(p, load).cur < p.cur && Ticks(p, load, k).cur < c <= p.cur
    ensures WantsIn(c, p.core, load)
  {
    Shrinks(p, load, k - 1);
    TickTells(Ticks(p, load, k - 1), load);
    if Ticks(p, load, k - 1).cur < c { PassedInwards(p, load, k - 1, c); }
  }

  // ---- the objects ----

  class Handle {
    var maxTasks: nat
    var poolSize: Threads

    constructor (maxTasksPerWorker: nat, threads: Threads)
      ensures maxTasks == SaturatingMul(maxTasksPerWorker, threads) && poolSize == threads
    {
      maxTasks, poolSize := SaturatingMul(maxTasksPerWorker, threads), threads;
    }

    method ScalePoolSize(n: Threads)
      modifies this
      ensures poolSize == n && maxTasks == SaturatingMul(old(maxTasks) / old(poolSize), n)
    {
      maxTasks := SaturatingMul(maxTasks / poolSize, n);
      poolSize := n;
    }

    method SetMaxTasksPerWorker(n: nat)
      modifies `maxTasks
      ensures maxTasks == SaturatingMul(n, poolSize)
    {
      maxTasks := SaturatingMul(n, poolSize);
    }
  }

  class ConfigRunner {
    const handle: Handle
    var core: Threads
    const max: nat
    var cur: Threads
    var auto: bool
    ghost var perWorker: nat

    ghost function View(): (p: Pool)
      reads this, handle
    {
      Pool(handle.poolSize, handle.maxTasks, core, max, cur, auto, perWorker)
    }

    constructor (handle: Handle, max: nat, auto: bool, ghost perWorker: nat)
      requires handle.maxTasks == SaturatingMul(perWorker, handle.poolSize)
      ensures this.handle == handle && View() == Init(handle.poolSize, max, auto, perWorker)
    {
      this.handle, this.max, this.auto, this.perWorker := handle, max, auto, perWorker;
      core, cur := handle.poolSize, handle.poolSize;
    }

    method RunTask(task: Event)
      requires !task.Tick? && Inv(View())
      modifies this, handle
      ensures View() == Apply(old(View()), task) && Inv(View())
    {
      match task {
        case PoolSize(n) =>
          if n != core {
            handle.ScalePoolSize(n);
            core, cur := n, n;
          }
        case AutoAdjust(on) =>
          auto := on;
          if !on && cur != core {
            handle.ScalePoolSize(core);
            cur := core;
          }
        case MaxTasksPerWorker(n) =>
          handle.SetMaxTasksPerWorker(n);
          perWorker := n;
      }
    }

    method AdjustPoolSize(load: Load)
      requires Inv(View())
      modifies this, handle
      ensures View() == Ticked(old(View()), load) && Inv(View())
    {
      if !auto || (cur == max && core == max) {
        return;
      }
      if load.processCpu.None? {
        return;
      }
      var target := cur;
      if cur < max
        && load.processCpu.value * (cur as real + 1.0) / (cur as real) < load.cpuQuota
        && load.poolCpu > cur as real * HIGH_THRESHOLD
        && load.runningTasks > cur * RUNNING_TASKS_PER_THREAD_THRESHOLD
      {
        target := cur + 1;
      } else if cur > core
        && load.poolCpu < (cur - 1) as real * LOW_THRESHOLD
        && load.runningTasks < cur * RUNNING_TASKS_PER_THREAD_THRESHOLD
      {
        target := cur - 1;
      }
      if target != cur {
        handle.ScalePoolSize(target);
        cur := target;
      }
    }
  }
}
