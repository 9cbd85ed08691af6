/**
 The timing of a coprocessor request: an eight-stage machine fed by a monotone clock, and the
 destructor that fast-forwards it to the end from wherever it was left.
 */
module Tracker {
  import opened Wrappers

  datatype Stage =
    | Initialized
    | Scheduled(at: nat)
    | SnapshotRetrieved(at: nat)
    | AllItemsBegan
    | ItemBegan(at: nat)
    | ItemFinished(at: nat)
    | AllItemFinished
    | Tracked

  // `builtAt`, `firstBegin`, `lastFinish` and `endedAt` are history: when the handler was ready, the
  // first item began, the last one finished, and the request ended.
  // `reports` counts how often the request was reported to the metrics.
  datatype Record = Record(
    beginAt: nat, stage: Stage,
    waitTime: nat, scheduleWait: nat, snapshotWait: nat, handlerBuild: nat, lifetime: nat,
    itemSuspend: nat, totalSuspend: nat, itemProcess: nat, totalProcess: nat,
    items: nat, builtAt: nat, firstBegin: nat, lastFinish: nat, endedAt: nat, reports: nat)

  datatype Kind = Schedule | FinishSnapshot | BeginAll | BeginItem | FinishItem | FinishAll

  function New(now: nat): (r: Record) {
    Record(now, Initialized, 0, 0, 0, 0, 0, 0, 0, 0, 0, 0, 0, 0, 0, 0, 0)
  }

  // The transitions that neither assert nor reach unreachable!().
  predicate Allowed(stage: Stage, k: Kind) {
    match k
    case Schedule => stage.Initialized?
    case FinishSnapshot => stage.Scheduled?
    case BeginAll => stage.SnapshotRetrieved?
    case BeginItem => stage.AllItemsBegan? || stage.ItemFinished?
    case FinishItem => stage.ItemBegan?
    case FinishAll => stage.AllItemsBegan? || stage.ItemFinished?
  }

  function Minus(a: nat, b: nat): (d: nat) {
    if a >= b then a - b else 0
  }

  function Step(r: Record, k: Kind, now: nat): (r': Record)
    requires Allowed(r.stage, k)
  {
    match k
    case Schedule => r.(scheduleWait := Minus(now, r.beginAt), stage := Scheduled(now))
    case FinishSnapshot =>
      r.(snapshotWait := Minus(now, r.stage.at), waitTime := Minus(now, r.beginAt), stage := SnapshotRetrieved(now))
    case BeginAll => r.(handlerBuild := Minus(now, r.stage.at), builtAt := now, stage := AllItemsBegan)
    case BeginItem =>
      var pause := if r.stage.ItemFinished? then Minus(now, r.stage.at) else r.itemSuspend;
      r.(itemSuspend := pause,
         totalSuspend := r.totalSuspend + (if r.stage.ItemFinished? then pause else 0),
         firstBegin := if r.items == 0 then now else r.firstBegin,
         stage := ItemBegan(now))
    case FinishItem =>
      var spent := Minus(now, r.stage.at);
      r.(itemProcess := spent, totalProcess := r.totalProcess + spent,
         items := r.items + 1, lastFinish := now, stage := ItemFinished(now))
    case FinishAll =>
      r.(lifetime := Minus(now, r.beginAt), endedAt := now, stage := Tracked, reports := r.reports + 1)
  }

  // ---- what the recorded times mean ----

  // By `now` the parts of the request's time have been booked without gap or overlap.
  ghost predicate Booked(r: Record, now: nat) {
    && r.beginAt <= now
    && r.reports == (if r.stage.Tracked? then 1 else 0)
    && match r.stage
       case Initialized => Unstarted(r) && r.waitTime == r.scheduleWait == r.snapshotWait == 0
       case Scheduled(at) =>
         r.beginAt <= at <= now && r.scheduleWait == at - r.beginAt && r.snapshotWait == 0 && Unstarted(r)
       case SnapshotRetrieved(at) => at <= now && Waited(r) && r.beginAt + r.waitTime == at && Unstarted(r)
       case AllItemsBegan => Built(r) && r.builtAt <= now && NoItems(r)
       case ItemBegan(at) => at <= now && Working(r, at)
       case ItemFinished(at) => at <= now && r.items > 0 && r.lastFinish == at && Working(r, at)
       case AllItemFinished => false
       case Tracked =>
         && r.endedAt <= now && r.beginAt + r.lifetime == r.endedAt
         && (if r.items == 0 then Built(r) && NoItems(r) && r.builtAt <= r.endedAt
             else Working(r, r.lastFinish) && r.lastFinish <= r.endedAt)
  }

  ghost predicate Waited(r: Record) {
    r.scheduleWait + r.snapshotWait == r.waitTime
  }

  // Waiting and building reach from the begin to the moment the handler was ready.
  ghost predicate Built(r: Record) {
    Waited(r) && r.beginAt + r.waitTime + r.handlerBuild == r.builtAt
  }

  ghost predicate NoItems(r: Record) {
    r.items == 0 && r.totalProcess == 0 && r.totalSuspend == 0 && r.itemSuspend == 0
  }

  ghost predicate Unstarted(r: Record) {
    r.handlerBuild == 0 && NoItems(r)
  }

  // From the first item's begin to `until`, all time is processing or suspension.
  ghost predicate Working(r: Record, until: nat) {
    && Built(r) && r.builtAt <= r.firstBegin
    && r.firstBegin + r.totalProcess + r.totalSuspend == until
    && (r.items == 0 ==> NoItems(r))
  }

  lemma StepBooks(r: Record, k: Kind, before: nat, now: nat)
    requires Allowed(r.stage, k) && Booked(r, before) && before <= now
    ensures Booked(Step(r, k, now), now)
  {}

  // ---- whole lives ----

  // A life: transitions with the clock readings they took.
  ghost predicate Legal(r: Record, kinds: seq<Kind>, times: seq<nat>)
    requires |kinds| == |times|
    decreases |kinds|
  {
    kinds == [] || (Allowed(r.stage, kinds[0]) && Legal(Step(r, kinds[0], times[0]), kinds[1..], times[1..]))
  }

  ghost function Live(r: Record, kinds: seq<Kind>, times: seq<nat>): (r': Record)
    requires |kinds| == |times| && Legal(r, kinds, times)
    decreases |kinds|
  {
    if kinds == [] then r else Live(Step(r, kinds[0], times[0]), kinds[1..], times[1..])
  }

  ghost predicate Monotone(times: seq<nat>, from: nat) {
    times == [] || (from <= times[0] && Monotone(times[1..], times[0]))
  }

  function Latest(times: seq<nat>, from: nat): (t: nat) {
    if times == [] then from else times[|times| - 1]
  }

  lemma {:induction false} LifeBooks(r: Record, kinds: seq<Kind>, times: seq<nat>, now: nat)
    requires |kinds| == |times| && Legal(r, kinds, times) && Monotone(times, now) && Booked(r, now)
    ensures Booked(Live(r, kinds, times), Latest(times, now))
    decreases |kinds|
  {
    if kinds != [] {
      StepBooks(r, kinds[0], now, times[0]);
      LifeBooks(Step(r, kinds[0], times[0]), kinds[1..], times[1..], times[0]);
    }
  }

  // For any number of items: waiting splits into scheduling and snapshot, the items' time splits
  // into processing and suspension, and the lifetime is what was booked plus the time from the
  // handler's readiness to the first item and from the last item to the end.
  lemma TimesAddUp(start: nat, kinds: seq<Kind>, times: seq<nat>)
    requires |kinds| == |times| && Legal(New(start), kinds, times) && Monotone(times, start)
    ensures var r := Live(New(start), kinds, times);
      && (!r.stage.Initialized? && !r.stage.Scheduled? ==> r.scheduleWait + r.snapshotWait == r.waitTime)
      && (r.items > 0 && !r.stage.ItemBegan? ==> r.totalProcess + r.totalSuspend == r.lastFinish - r.firstBegin)
      && (r.stage.Tracked? ==> r.reports == 1 && r.lifetime == r.endedAt - r.beginAt)
      && (r.stage.Tracked? ==> r.waitTime + r.handlerBuild + r.totalProcess + r.totalSuspend <= r.lifetime)
      && (r.stage.Tracked? ==>
            r.lifetime - (r.waitTime + r.handlerBuild + r.totalProcess + r.totalSuspend) ==
            if r.items == 0 then r.endedAt - r.builtAt else (r.firstBegin - r.builtAt) + (r.endedAt - r.lastFinish))
  {
    LifeBooks(New(start), kinds, times, start);
  }

  // ---- the recorded times are those of the clock ----

  // The time from the begin to the end of each item, added up; `began` is when the item under way
  // began.
  function Busy(kinds: seq<Kind>, times: seq<nat>, began: nat): (d: nat)
    requires |kinds| == |times|
  {
    if kinds == [] then 0
    else if kinds[0].BeginItem? then Busy(kinds[1..], times[1..], times[0])
    else (if kinds[0].FinishItem? then Minus(times[0], began) else 0) + Busy(kinds[1..], times[1..], 0)
  }

  // The time from the end of each item to the begin of the next, added up; `ended` is when the
  // last item ended, if no other has begun.
  function Paused(kinds: seq<Kind>, times: seq<nat>, ended: Option<nat>): (d: nat)
    requires |kinds| == |times|
  {
    if kinds == [] then 0
    else if kinds[0].FinishItem? then Paused(kinds[1..], times[1..], Some(times[0]))
    else
      (if kinds[0].BeginItem? && ended.Some? then Minus(times[0], ended.value) else 0)
      + Paused(kinds[1..], times[1..], None)
  }

  // How many items ended, and when the last one did.
  function Finished(kinds: seq<Kind>, times: seq<nat>, last: nat): (r: (nat, nat))
    requires |kinds| == |times|
  {
    if kinds == [] then (0, last)
    else
      var (n, t) := Finished(kinds[1..], times[1..], if kinds[0].FinishItem? then times[0] else last);
      (n + (if kinds[0].FinishItem? then 1 else 0), t)
  }

  function BeganAt(stage: Stage): (t: nat) {
    if stage.ItemBegan? then stage.at else 0
  }

  function EndedAt(stage: Stage): (t: Option<nat>) {
    if stage.ItemFinished? then Some(stage.at) else None
  }

  lemma {:induction false} ItemsAreTimed(r: Record, kinds: seq<Kind>, times: seq<nat>)
    requires |kinds| == |times| && Legal(r, kinds, times)
    ensures var r' := Live(r, kinds, times);
      && r'.totalProcess == r.totalProcess + Busy(kinds, times, BeganAt(r.stage))
      && r'.totalSuspend == r.totalSuspend + Paused(kinds, times, EndedAt(r.stage))
      && r'.items == r.items + Finished(kinds, times, r.lastFinish).0
      && r'.lastFinish == Finished(kinds, times, r.lastFinish).1
    decreases |kinds|
  {
    if kinds != [] {
      ItemsAreTimed(Step(r, kinds[0], times[0]), kinds[1..], times[1..]);
    }
  }

  // Once behind a stage its times stay.
  lemma {:induction false} WaitsStay(r: Record, kinds: seq<Kind>, times: seq<nat>)
    requires |kinds| == |times| && Legal(r, kinds, times)
    ensures var r' := Live(r, kinds, times);
      && r'.beginAt == r.beginAt
      && (!r.stage.Initialized? ==> r'.scheduleWait == r.scheduleWait)
      && (!r.stage.Initialized? && !r.stage.Scheduled? ==> r'.snapshotWait == r.snapshotWait && r'.waitTime == r.waitTime)
      && (!r.stage.Initialized? && !r.stage.Scheduled? && !r.stage.SnapshotRetrieved? ==> r'.handlerBuild == r.handlerBuild)
      && (r.stage.Tracked? ==> kinds == [])
    decreases |kinds|
  {
    if kinds != [] {
      WaitsStay(Step(r, kinds[0], times[0]), kinds[1..], times[1..]);
    }
  }

  lemma {:induction false} EndsAtTheEnd(r: Record, kinds: seq<Kind>, times: seq<nat>)
    requires |kinds| == |times| && Legal(r, kinds, times) && !r.stage.Tracked?
    ensures var r' := Live(r, kinds, times);
      r'.stage.Tracked? ==> kinds != [] && r'.lifetime == Minus(times[|times| - 1], r.beginAt)
    decreases |kinds|
  {
    if kinds != [] {
      var next := Step(r, kinds[0], times[0]);
      WaitsStay(next, kinds[1..], times[1..]);
      if !next.stage.Tracked? {
        EndsAtTheEnd(next, kinds[1..], times[1..]);
        assert |times| > 1 ==> times[1..][|times| - 2] == times[|times| - 1];
      }
    }
  }

  // The first transitions of a life, and the waits they leave behind.
  lemma WaitsAreTimed(start: nat, kinds: seq<Kind>, times: seq<nat>)
    requires |kinds| == |times| && Legal(New(start), kinds, times)
    ensures var r := Live(New(start), kinds, times);
      && (|kinds| > 0 ==> r.scheduleWait == Minus(times[0], start))
      && (|kinds| > 1 ==> r.snapshotWait == Minus(times[1], times[0]) && r.waitTime == Minus(times[1], start))
      && (|kinds| > 2 ==> r.handlerBuild == Minus(times[2], times[1]))
  {
    if |kinds| > 0 {
      var a := Step(New(start), kinds[0], times[0]);
      WaitsStay(a, kinds[1..], times[1..]);
      if |kinds| > 1 {
        SecondWait(a, kinds[1..], times[1..]);
      }
    }
  }

  lemma SecondWait(a: Record, kinds: seq<Kind>, times: seq<nat>)
    requires |kinds| == |times| > 0 && Legal(a, kinds, times) && a.stage.Scheduled?
    ensures var r := Live(a, kinds, times);
      && r.snapshotWait == Minus(times[0], a.stage.at) && r.waitTime == Minus(times[0], a.beginAt)
      && (|kinds| > 1 ==> r.handlerBuild == Minus(times[1], times[0]))
  {
    var b := Step(a, kinds[0], times[0]);
    WaitsStay(b, kinds[1..], times[1..]);
    if |kinds| > 1 {
      var c := Step(b, kinds[1..][0], times[1..][0]);
      WaitsStay(c, kinds[1..][1..], times[1..][1..]);
    }
  }

  // Every time in the record of a request is read off the clock at its transitions.
  lemma TimesAreTheClocks(start: nat, kinds: seq<Kind>, times: seq<nat>)
    requires |kinds| == |times| && Legal(New(start), kinds, times)
    ensures var r := Live(New(start), kinds, times);
      && (|kinds| > 0 ==> r.scheduleWait == Minus(times[0], start))
      && (|kinds| > 1 ==> r.snapshotWait == Minus(times[1], times[0]) && r.waitTime == Minus(times[1], start))
      && (|kinds| > 2 ==> r.handlerBuild == Minus(times[2], times[1]))
      && r.totalProcess == Busy(kinds, times, 0) && r.totalSuspend == Paused(kinds, times, None)
      && (r.items, r.lastFinish) == Finished(kinds, times, 0)
      && (r.stage.Tracked? ==> kinds != [] && r.lifetime == Minus(times[|times| - 1], start))
  {
    WaitsAreTimed(start, kinds, times);
    ItemsAreTimed(New(start), kinds, times);
    EndsAtTheEnd(New(start), kinds, times);
  }

  // The transitions that `drop` makes up for, by the stage it finds.
  function FastForward(stage: Stage): (kinds: seq<Kind>) {
    match stage
    case Initialized => [Schedule, FinishSnapshot, BeginAll, FinishAll]
    case Scheduled(_) => [FinishSnapshot, BeginAll, FinishAll]
    case SnapshotRetrieved(_) => [BeginAll, FinishAll]
    case AllItemsBegan => [FinishAll]
    case ItemBegan(_) => [FinishItem, FinishAll]
    case ItemFinished(_) => [FinishAll]
    case AllItemFinished => []
    case Tracked => []
  }

  // Wherever a legal life stops, the fast-forward is legal and ends in Tracked, so that every
  // request is reported exactly once.
  lemma DropAlwaysReports(start: nat, kinds: seq<Kind>, times: seq<nat>, rest: seq<nat>)
    requires |kinds| == |times| && Legal(New(start), kinds, times) && Monotone(times, start)
    requires Monotone(rest, Latest(times, start))
    requires |rest| == |FastForward(Live(New(start), kinds, times).stage)|
    ensures var r := Live(New(start), kinds, times);
      && Legal(r, FastForward(r.stage), rest)
      && Live(r, FastForward(r.stage), rest).stage.Tracked?
      && Live(r, FastForward(r.stage), rest).reports == 1
  {
    LifeBooks(New(start), kinds, times, start);
    FastForwardTracks(Live(New(start), kinds, times), rest, Latest(times, start));
  }

  lemma {:induction false} FastForwardTracks(r: Record, rest: seq<nat>, now: nat)
    requires Booked(r, now) && |rest| == |FastForward(r.stage)| && Monotone(rest, now)
    ensures Legal(r, FastForward(r.stage), rest)
    ensures Live(r, FastForward(r.stage), rest).stage.Tracked?
    ensures Live(r, FastForward(r.stage), rest).reports == 1
    decreases |rest|
  {
    if rest != [] {
      var k := FastForward(r.stage)[0];
      StepBooks(r, k, now, rest[0]);
      assert FastForward(r.stage)[1..] == FastForward(Step(r, k, rest[0]).stage);
      FastForwardTracks(Step(r, k, rest[0]), rest[1..], rest[0]);
    }
  }

  // ---- the object ----

  // The process clock: it never goes back, and how far it advances is not known.
  class Clock {
    var now: nat

    method Now() returns (t: nat)
      modifies this
      ensures t == now && old(now) <= now
    {
      var elapsed: nat :| elapsed >= 0;
      now := now + elapsed;
      t := now;
    }
  }

  class RequestTracker {
    var beginAt: nat
    var stage: Stage
    var waitTime: nat
    var scheduleWait: nat
    var snapshotWait: nat
    var handlerBuild: nat
    var lifetime: nat
    var itemSuspend: nat
    var totalSuspend: nat
    var itemProcess: nat
    var totalProcess: nat
    ghost var items: nat
    ghost var builtAt: nat
    ghost var firstBegin: nat
    ghost var lastFinish: nat
    ghost var endedAt: nat
    var reports: nat

    ghost function View(): (r: Record)
      reads this
    {
      Record(beginAt, stage, waitTime, scheduleWait, snapshotWait, handlerBuild, lifetime,
             itemSuspend, totalSuspend, itemProcess, totalProcess, items, builtAt, firstBegin, lastFinish, endedAt, reports)
    }

    constructor (now: nat)
      ensures View() == New(now)
    {
      beginAt, stage := now, Initialized;
      waitTime, scheduleWait, snapshotWait, handlerBuild, lifetime := 0, 0, 0, 0, 0;
      itemSuspend, totalSuspend, itemProcess, totalProcess := 0, 0, 0, 0;
      items, builtAt, firstBegin, lastFinish, endedAt, reports := 0, 0, 0, 0, 0, 0;
    }

    method OnScheduled(clock: Clock)
      requires stage.Initialized?
      modifies this, clock
      ensures old(clock.now) <= clock.now && View() == Step(old(View()), Schedule, clock.now)
    {
      var now := clock.Now();
      scheduleWait := Minus(now, beginAt);
      stage := Scheduled(now);
    }

    method OnSnapshotFinished(clock: Clock)
      requires stage.Scheduled?
      modifies this, clock
      ensures old(clock.now) <= clock.now && View() == Step(old(View()), FinishSnapshot, clock.now)
    {
      var now := clock.Now();
      snapshotWait := Minus(now, stage.at);
      waitTime := Minus(now, beginAt);
      stage := SnapshotRetrieved(now);
    }

    method OnBeginAllItems(clock: Clock)
      requires stage.SnapshotRetrieved?
      modifies this, clock
      ensures old(clock.now) <= clock.now && View() == Step(old(View()), BeginAll, clock.now)
    {
      var now := clock.Now();
      handlerBuild := Minus(now, stage.at);
      builtAt, stage := now, AllItemsBegan;
    }

    method OnBeginItem(clock: Clock)
      requires stage.AllItemsBegan? || stage.ItemFinished?
      modifies this, clock
      ensures old(clock.now) <= clock.now && View() == Step(old(View()), BeginItem, clock.now)
    {
      var now := clock.Now();
      if stage.ItemFinished? {
        itemSuspend := Minus(now, stage.at);
        totalSuspend := totalSuspend + itemSuspend;
      }
      firstBegin := if items == 0 then now else firstBegin;
      stage := ItemBegan(now);
    }

    method OnFinishItem(clock: Clock)
      requires stage.ItemBegan?
      modifies this, clock
      ensures old(clock.now) <= clock.now && View() == Step(old(View()), FinishItem, clock.now)
    {
      var now := clock.Now();
      itemProcess := Minus(now, stage.at);
      totalProcess := totalProcess + itemProcess;
      items, lastFinish := items + 1, now;
      stage := ItemFinished(now);
    }

    method OnFinishAllItems(clock: Clock)
      requires stage.AllItemsBegan? || stage.ItemFinished?
      modifies this, clock
      ensures old(clock.now) <= clock.now && View() == Step(old(View()), FinishAll, clock.now)
    {
      var now := clock.Now();
      lifetime := Minus(now, beginAt);
      endedAt, stage := now, AllItemFinished;
      Track();
    }

    // Reports the request; does nothing unless all items have just finished.
    method Track()
      modifies this
      ensures !old(stage).AllItemFinished? ==> View() == old(View())
      ensures old(stage).AllItemFinished? ==> View() == old(View()).(stage := Tracked, reports := old(reports) + 1)
    {
      if !stage.AllItemFinished? {
        return;
      }
      reports := reports + 1;
      stage := Tracked;
    }

    // The details of the item that has just finished.
    method GetItemExecDetails() returns (process: nat, suspend: nat)
      requires stage.ItemFinished?
      ensures process == itemProcess && suspend == itemSuspend
    {
      process, suspend := itemProcess, itemSuspend;
    }

    // Completes whatever is missing. The deadline warning is logged whenever the deadline has
    // passed by now, even for a request that completed in time: the stage test before it never
    // holds it back.
    method Drop(clock: Clock, deadlineExceeded: bool) returns (warned: bool)
      requires Booked(View(), clock.now)
      modifies this, clock
      ensures stage.Tracked? && reports == 1 && Booked(View(), clock.now)
      ensures old(stage).Tracked? ==> View() == old(View())
      ensures totalSuspend == old(totalSuspend) && totalProcess >= old(totalProcess)
      ensures !old(stage).ItemBegan? ==> totalProcess == old(totalProcess) && items == old(items)
      ensures warned == deadlineExceeded
    {
      PassSetup(clock);
      if stage.ItemBegan? {
        Hold(clock, FinishItem);
        OnFinishItem(clock);
      }
      if stage.AllItemsBegan? {
        Hold(clock, FinishAll);
        OnFinishAllItems(clock);
      }
      if stage.ItemFinished? {
        Hold(clock, FinishAll);
        OnFinishAllItems(clock);
      }
      warned := !stage.AllItemFinished? && deadlineExceeded;
    }

    // The stages before the first item.
    method PassSetup(clock: Clock)
      requires Booked(View(), clock.now)
      modifies this, clock
      ensures Booked(View(), clock.now) && old(clock.now) <= clock.now
      ensures !stage.Initialized? && !stage.Scheduled? && !stage.SnapshotRetrieved?
      ensures !old(stage).Initialized? && !old(stage).Scheduled? && !old(stage).SnapshotRetrieved? ==> View() == old(View())
      ensures totalProcess == old(totalProcess) && totalSuspend == old(totalSuspend) && items == old(items)
      ensures stage.ItemBegan? <==> old(stage).ItemBegan?
    {
      if stage.Initialized? {
        Hold(clock, Schedule);
        OnScheduled(clock);
      }
      if stage.Scheduled? {
        Hold(clock, FinishSnapshot);
        OnSnapshotFinished(clock);
      }
      if stage.SnapshotRetrieved? {
        Hold(clock, BeginAll);
        OnBeginAllItems(clock);
      }
    }

    // Whenever the next transition happens, the books stay balanced.
    lemma Hold(clock: Clock, k: Kind)
      requires Allowed(stage, k) && Booked(View(), clock.now)
      ensures forall t :: clock.now <= t ==> Booked(Step(View(), k, t), t)
    {
      forall t | clock.now <= t ensures Booked(Step(View(), k, t), t) {
        StepBooks(View(), k, clock.now, t);
      }
    }
  }
}
