/**
 The loop behind a streaming coprocessor request: it asks the handler for one result after the
 other, yields them, and keeps the request's tracker in step, whether the stream runs to its end
 or is dropped on the way.
 */
module StreamRequest {
  import opened Tracker

  // One answer of the handler.
  datatype Outcome<T> = Failed(error: T) | NoMore | Item(data: T, finished: bool)

  // One element of the stream. `Broken` is an error that ends the stream before the loop.
  datatype Element<T> = Broken | Response(data: T, process: nat, suspend: nat)

  // How far a request gets before the handler is asked for the first time.
  datatype Setup =
    | DroppedInQueue          // dropped while waiting for a permit
    | DeadlineInQueue
    | DroppedAwaitingSnapshot
    | NoSnapshot
    | DeadlineAfterSnapshot
    | NoHandler
    | Ready

  predicate Terminal<T>(o: Outcome<T>) {
    o.Failed? || o.NoMore? || o.finished
  }

  function Payload<T>(o: Outcome<T>): (d: seq<T>) {
    match o
    case Failed(e) => [e]
    case NoMore => []
    case Item(d, _) => [d]
  }

  // The answers the loop acts on: all up to and including the first terminal one.
  function Heard<T>(answers: seq<Outcome<T>>): (n: nat)
    ensures n <= |answers|
    ensures forall i :: 0 <= i < n - 1 ==> answers[i].Item? && !answers[i].finished
    ensures n < |answers| ==> n > 0 && (answers[n - 1].Item? ==> answers[n - 1].finished)
  {
    if answers == [] then 0 else if Terminal(answers[0]) then 1 else 1 + Heard(answers[1..])
  }

  function Payloads<T>(answers: seq<Outcome<T>>): (d: seq<T>) {
    if answers == [] then [] else Payloads(answers[..|answers| - 1]) + Payload(answers[|answers| - 1])
  }

  predicate Ends<T>(answers: seq<Outcome<T>>) {
    Heard(answers) > 0 && Terminal(answers[Heard(answers) - 1])
  }

  // The stream's elements are the handler's answers up to the first terminal one, cut where it was
  // dropped; the handler is never asked again after a terminal answer; and the stream completes
  // exactly if a terminal answer came and every element was followed up.
  ghost predicate Delivered<T>(
    answers: seq<Outcome<T>>, resumes: nat, elements: seq<Element<T>>, calls: nat, completed: bool)
  {
    var whole := Payloads(answers[..Heard(answers)]);
    && Data(elements) <= whole && |Data(elements)| == |elements| <= resumes + 1
    && (|elements| <= resumes ==> Data(elements) == whole)
    && calls <= Heard(answers) + (if Ends(answers) then 0 else 1)
    && (completed <==> Ends(answers) && |whole| <= resumes)
    && (completed ==> calls == Heard(answers))
  }

  // An element carries what its answer held; a plain end has none.
  ghost predicate Carries<T>(e: Element<T>, o: Outcome<T>) {
    match o
    case Failed(error) => e.Response? && e.data == error
    case NoMore => false
    case Item(data, _) => e.Response? && e.data == data
  }

  // The same answer by answer: all but the last that was asked for are items with more to follow,
  // and element i carries answer i. A completed stream ended with a failure, a plain end or a
  // finished item; any other was dropped at an element or while the handler was at work.
  ghost predicate Exact<T>(
    answers: seq<Outcome<T>>, resumes: nat, elements: seq<Element<T>>, calls: nat, completed: bool)
  {
    && calls <= |answers| + 1 && |elements| <= |answers| && |elements| <= resumes + 1
    && (forall i :: 0 <= i < calls - 1 ==> answers[i].Item? && !answers[i].finished)
    && (forall i :: 0 <= i < |elements| ==> Carries(elements[i], answers[i]))
    && (if completed then
          && 0 < calls <= |answers| && |elements| <= resumes
          && (answers[calls - 1].Item? ==> answers[calls - 1].finished)
          && |elements| == (if answers[calls - 1].NoMore? then calls - 1 else calls)
        else calls == |elements| == resumes + 1 || (calls == |answers| + 1 && |elements| == |answers|))
  }

  function Data<T>(ys: seq<Element<T>>): (d: seq<T>) {
    if ys == [] then []
    else Data(ys[..|ys| - 1]) + (if ys[|ys| - 1].Broken? then [] else [ys[|ys| - 1].data])
  }

  // An answer becomes an element that carries the times of its item; a plain end becomes none.
  function Extended<T>(es: seq<Element<T>>, o: Outcome<T>, process: nat, suspend: nat): (r: seq<Element<T>>)
    ensures Reported(r) == if o.NoMore? then Reported(es) else (Reported(es).0 + process, Reported(es).1 + suspend)
  {
    match o
    case Failed(e) =>
      assert (es + [Response(e, process, suspend)])[..|es|] == es;
      es + [Response(e, process, suspend)]
    case NoMore => es
    case Item(data, _) =>
      assert (es + [Response(data, process, suspend)])[..|es|] == es;
      es + [Response(data, process, suspend)]
  }

  // The process and suspend times that the elements report, added up.
  function Reported<T>(es: seq<Element<T>>): (r: (nat, nat)) {
    if es == [] then (0, 0)
    else
      var (p, q) := Reported(es[..|es| - 1]);
      var e := es[|es| - 1];
      if e.Broken? then (p, q) else (p + e.process, q + e.suspend)
  }

  lemma PayloadsAppend<T>(answers: seq<Outcome<T>>, n: nat)
    requires n < |answers|
    ensures Payloads(answers[..n + 1]) == Payloads(answers[..n]) + Payload(answers[n])
  {
    assert answers[..n + 1][..n] == answers[..n];
  }

  // The stream is dropped after `resumes` elements have been followed up, or while the handler
  // works on an answer beyond `answers`. `calls` is how often the handler was asked.
  method HandleStreamRequest<T>(tracker: RequestTracker, clock: Clock, setup: Setup, answers: seq<Outcome<T>>, resumes: nat,
                                deadlineExceeded: bool)
    returns (elements: seq<Element<T>>, calls: nat, completed: bool)
    requires tracker.View() == New(clock.now)
    modifies tracker, clock
    // the request is reported exactly once and its times add up, whatever happened
    ensures tracker.stage.Tracked? && tracker.reports == 1 && Booked(tracker.View(), clock.now)
    // without a handler the stream has at most one element, an error
    ensures !setup.Ready? ==> calls == 0 && !completed
    ensures !setup.Ready? ==> elements == if setup.DroppedInQueue? || setup.DroppedAwaitingSnapshot? then [] else [Broken]
    // with one it delivers the handler's answers
    ensures setup.Ready? ==> Delivered(answers, resumes, elements, calls, completed)
    ensures setup.Ready? ==> Exact(answers, resumes, elements, calls, completed)
    // a completed stream timed one item for every answer
    ensures completed ==> tracker.items == calls
    // and what the elements say about their time is what the request's totals are made of
    ensures Reported(elements).0 <= tracker.totalProcess && Reported(elements).1 <= tracker.totalSuspend
    ensures completed && !answers[calls - 1].NoMore? ==>
      Reported(elements) == (tracker.totalProcess, tracker.totalSuspend)
  {
    elements, calls, completed := [], 0, false;
    var ready;
    ready, elements := PrepareHandler<T>(tracker, clock, setup);
    if ready {
      elements, calls, completed := StreamLoop(tracker, clock, answers, resumes);
    }
    var warned := tracker.Drop(clock, deadlineExceeded);
  }

  // Everything before the loop.
  method PrepareHandler<T>(tracker: RequestTracker, clock: Clock, setup: Setup) returns (ready: bool, elements: seq<Element<T>>)
    requires tracker.View() == New(clock.now)
    modifies tracker, clock
    ensures Booked(tracker.View(), clock.now) && ready == setup.Ready?
    ensures ready ==> tracker.stage.AllItemsBegan?
    ensures elements == if ready || setup.DroppedInQueue? || setup.DroppedAwaitingSnapshot? then [] else [Broken]
  {
    ready, elements := false, [];
    if setup.DroppedInQueue? {
      return;
    }
    tracker.Hold(clock, Schedule);
    tracker.OnScheduled(clock);
    if setup.DeadlineInQueue? {
      return false, [Broken];
    }
    if setup.DroppedAwaitingSnapshot? {
      return;
    }
    if setup.NoSnapshot? {
      return false, [Broken];
    }
    tracker.Hold(clock, FinishSnapshot);
    tracker.OnSnapshotFinished(clock);
    if setup.DeadlineAfterSnapshot? || setup.NoHandler? {
      return false, [Broken];
    }
    tracker.Hold(clock, BeginAll);
    tracker.OnBeginAllItems(clock);
    ready := true;
  }

  // One turn of the loop: ask the handler, and time it.
  method AskHandler(tracker: RequestTracker, clock: Clock, answered: bool) returns (process: nat, suspend: nat)
    requires Booked(tracker.View(), clock.now) && (tracker.stage.AllItemsBegan? || tracker.stage.ItemFinished?)
    modifies tracker, clock
    ensures answered ==> OneItem(old(tracker.View()), tracker.View(), clock.now, process, suspend)
    ensures Booked(tracker.View(), clock.now)
    ensures tracker.totalSuspend >= old(tracker.totalSuspend) && tracker.totalProcess >= old(tracker.totalProcess)
  {
    process, suspend := 0, 0;
    tracker.Hold(clock, BeginItem);
    tracker.OnBeginItem(clock);
    if !answered {
      return;
    }
    tracker.Hold(clock, FinishItem);
    tracker.OnFinishItem(clock);
    process, suspend := tracker.GetItemExecDetails();
  }

  // After a turn there is more to come, or that was the last answer, or the stream was dropped.
  datatype Status = More | Last | Gone

  function Judge<T>(extended: seq<Element<T>>, answer: Outcome<T>, resumes: nat): (status: Status)
    ensures status.More? ==> !answer.NoMore?
  {
    if |extended| > resumes then Gone else if Terminal(answer) then Last else More
  }

  // What a turn with answer n leaves behind.
  ghost predicate After<T>(answers: seq<Outcome<T>>, resumes: nat, elements: seq<Element<T>>, n: nat, status: Status) {
    match status
    case More => Underway(answers, resumes, elements, n)
    case Last => Delivered(answers, resumes, elements, n, true) && Exact(answers, resumes, elements, n, true)
    case Gone => Delivered(answers, resumes, elements, n, false) && Exact(answers, resumes, elements, n, false)
  }

  // The tracker and the stream after n turns: one item per turn, and the elements report no more
  // than the tracker's totals, and all of them as long as every answer became an element.
  ghost predicate Turned<T>(
    r: Record, now: nat, answers: seq<Outcome<T>>, resumes: nat, elements: seq<Element<T>>, n: nat, status: Status)
  {
    && Booked(r, now) && After(answers, resumes, elements, n, status)
    && Reported(elements).0 <= r.totalProcess && Reported(elements).1 <= r.totalSuspend
    && (!status.Gone? ==> r.items == n && (r.stage.ItemFinished? || (n == 0 && r.stage.AllItemsBegan?)))
    && (status.More? || (status.Last? && !answers[n - 1].NoMore?) ==> Reported(elements) == (r.totalProcess, r.totalSuspend))
  }

  // One item later, of the given times.
  ghost predicate OneItem(before: Record, after: Record, now: nat, process: nat, suspend: nat) {
    && Booked(after, now) && after.stage.ItemFinished? && after.items == before.items + 1
    && after.totalProcess == before.totalProcess + process && after.totalSuspend == before.totalSuspend + suspend
  }

  lemma TurnAnswered<T>(
    before: Record, was: nat, after: Record, now: nat, answers: seq<Outcome<T>>, resumes: nat, elements: seq<Element<T>>,
    n: nat, process: nat, suspend: nat)
    requires Turned(before, was, answers, resumes, elements, n, More) && n < |answers|
    requires OneItem(before, after, now, process, suspend)
    ensures var extended := Extended(elements, answers[n], process, suspend);
      Turned(after, now, answers, resumes, extended, n + 1, Judge(extended, answers[n], resumes))
  {
    Answered(answers, resumes, elements, n + 1, process, suspend);
  }

  lemma TurnAbandoned<T>(
    before: Record, was: nat, after: Record, now: nat, answers: seq<Outcome<T>>, resumes: nat, elements: seq<Element<T>>)
    requires Turned(before, was, answers, resumes, elements, |answers|, More)
    requires Booked(after, now) && after.totalProcess >= before.totalProcess && after.totalSuspend >= before.totalSuspend
    ensures Turned(after, now, answers, resumes, elements, |answers| + 1, Gone)
  {
    Abandoned(answers, resumes, elements);
  }

  // Asks for answer n and passes it on; beyond the last answer the stream is dropped while the
  // handler is still at work.
  method Turn<T>(tracker: RequestTracker, clock: Clock, answers: seq<Outcome<T>>, resumes: nat, elements: seq<Element<T>>, n: nat)
    returns (extended: seq<Element<T>>, status: Status)
    requires Turned(tracker.View(), clock.now, answers, resumes, elements, n, More)
    modifies tracker, clock
    ensures Turned(tracker.View(), clock.now, answers, resumes, extended, n + 1, status)
  {
    ghost var before, was := tracker.View(), clock.now;
    var process, suspend := AskHandler(tracker, clock, n < |answers|);
    if n == |answers| {
      TurnAbandoned(before, was, tracker.View(), clock.now, answers, resumes, elements);
      return elements, Gone;
    }
    TurnAnswered(before, was, tracker.View(), clock.now, answers, resumes, elements, n, process, suspend);
    extended := Extended(elements, answers[n], process, suspend);
    status := Judge(extended, answers[n], resumes);
  }

  // What the loop leaves behind.
  ghost predicate Streamed<T>(
    r: Record, now: nat, answers: seq<Outcome<T>>, resumes: nat, elements: seq<Element<T>>, calls: nat, completed: bool)
  {
    && Booked(r, now)
    && Delivered(answers, resumes, elements, calls, completed) && Exact(answers, resumes, elements, calls, completed)
    && Reported(elements).0 <= r.totalProcess && Reported(elements).1 <= r.totalSuspend
    && (completed ==> r.items == calls && !r.stage.ItemBegan?)
    && (completed && !answers[calls - 1].NoMore? ==> Reported(elements) == (r.totalProcess, r.totalSuspend))
  }

  method FinishStream<T>(
    tracker: RequestTracker, clock: Clock, ghost answers: seq<Outcome<T>>, ghost resumes: nat,
    ghost elements: seq<Element<T>>, ghost calls: nat)
    requires Turned(tracker.View(), clock.now, answers, resumes, elements, calls, Last)
    modifies tracker, clock
    ensures Streamed(tracker.View(), clock.now, answers, resumes, elements, calls, true)
  {
    tracker.Hold(clock, FinishAll);
    tracker.OnFinishAllItems(clock);
  }

  lemma NoTurns<T>(r: Record, now: nat, answers: seq<Outcome<T>>, resumes: nat)
    requires Booked(r, now) && r.stage.AllItemsBegan?
    ensures Turned(r, now, answers, resumes, [], 0, More)
  {}

  method StreamLoop<T>(tracker: RequestTracker, clock: Clock, answers: seq<Outcome<T>>, resumes: nat)
    returns (elements: seq<Element<T>>, calls: nat, completed: bool)
    requires Booked(tracker.View(), clock.now) && tracker.stage.AllItemsBegan?
    modifies tracker, clock
    ensures Streamed(tracker.View(), clock.now, answers, resumes, elements, calls, completed)
  {
    elements, calls := [], 0;
    var status := More;
    NoTurns(tracker.View(), clock.now, answers, resumes);
    while status.More?
      invariant Turned(tracker.View(), clock.now, answers, resumes, elements, calls, status)
      decreases |answers| + 1 - calls
    {
      elements, status := Turn(tracker, clock, answers, resumes, elements, calls);
      calls := calls + 1;
    }
    completed := status.Last?;
    if completed {
      FinishStream(tracker, clock, answers, resumes, elements, calls);
    }
  }

  // The first n answers have been passed on, none of them terminal.
  ghost predicate Underway<T>(answers: seq<Outcome<T>>, resumes: nat, elements: seq<Element<T>>, n: nat) {
    && n <= |answers| && Heard(answers) == n + Heard(answers[n..])
    && (n > 0 ==> !Terminal(answers[n - 1]))
    && Data(elements) == Payloads(answers[..n]) && |Data(elements)| == |elements| <= resumes
    && OneForOne(answers, elements, n)
  }

  // Element i carries answer i, an item with more to follow.
  ghost predicate OneForOne<T>(answers: seq<Outcome<T>>, elements: seq<Element<T>>, n: nat) {
    && n == |elements| <= |answers|
    && forall i :: 0 <= i < n ==> answers[i].Item? && !answers[i].finished && Carries(elements[i], answers[i])
  }

  lemma ExactlyAnswered<T>(
    answers: seq<Outcome<T>>, resumes: nat, elements: seq<Element<T>>, n: nat, process: nat, suspend: nat)
    requires n < |answers| && OneForOne(answers, elements, n) && n <= resumes
    ensures var after := Extended(elements, answers[n], process, suspend);
      match Judge(after, answers[n], resumes)
      case More => OneForOne(answers, after, n + 1)
      case Last => Exact(answers, resumes, after, n + 1, true)
      case Gone => Exact(answers, resumes, after, n + 1, false)
  {}

  lemma DataExtended<T>(es: seq<Element<T>>, o: Outcome<T>, process: nat, suspend: nat)
    ensures Data(Extended(es, o, process, suspend)) == Data(es) + Payload(o)
    ensures |Extended(es, o, process, suspend)| == |es| + |Payload(o)|
  {
    assert !o.NoMore? ==> Extended(es, o, process, suspend)[..|es|] == es;
  }

  lemma Answered<T>(
    answers: seq<Outcome<T>>, resumes: nat, elements: seq<Element<T>>, n: nat, process: nat, suspend: nat)
    requires 0 < n <= |answers| && Underway(answers, resumes, elements, n - 1)
    ensures var after := Extended(elements, answers[n - 1], process, suspend);
      After(answers, resumes, after, n, Judge(after, answers[n - 1], resumes))
  {
    assert answers[n - 1..][1..] == answers[n..];
    PayloadsAppend(answers, n - 1);
    PayloadPrefix(answers, n);
    DataExtended(elements, answers[n - 1], process, suspend);
    ExactlyAnswered(answers, resumes, elements, n - 1, process, suspend);
  }

  lemma Abandoned<T>(answers: seq<Outcome<T>>, resumes: nat, elements: seq<Element<T>>)
    requires Underway(answers, resumes, elements, |answers|)
    ensures Delivered(answers, resumes, elements, |answers| + 1, false)
  {
    assert answers[|answers|..] == [] && answers[..|answers|] == answers;
  }

  lemma {:induction false} PayloadPrefix<T>(answers: seq<Outcome<T>>, n: nat)
    requires n <= Heard(answers)
    ensures Payloads(answers[..n]) <= Payloads(answers[..Heard(answers)])
    decreases Heard(answers) - n
  {
    if n < Heard(answers) {
      PayloadsAppend(answers, n);
      PayloadPrefix(answers, n + 1);
    }
  }
}
