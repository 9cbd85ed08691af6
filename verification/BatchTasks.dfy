/**
 Batched coprocessor tasks: one future per task, started in order, finishing in any order, and
 collected in order. A started task asks the global tracker slab for an entry, and gives it back
 when it is done; a full shard refuses, and a batch that is dropped never gives anything back.
 */
module BatchTasks {
  import opened Wrappers
  import opened TrackerSlab

  // What handling a task came to: data, or one of the errors that end up in the response.
  datatype Body<T> = Handled(data: T) | Failed(error: T)

  // A batched task: its id, and the error if its request does not parse or is locked.
  datatype Task<T> = Task(id: nat, refused: Option<T>)

  datatype Response<T> = Response(taskId: nat, body: Body<T>)

  datatype Future<T> = InFlight(token: Token) | Ready(response: Response<T>)

  // The futures of the tasks started so far. Nobody polls the futures of a dropped batch.
  datatype Batch<T> = Batch(tasks: seq<Task<T>>, futures: seq<Future<T>>, dropped: bool) {
    predicate Started() {
      |futures| == |tasks|
    }

    predicate AllReady() {
      Started() && forall i :: 0 <= i < |futures| ==> futures[i].Ready?
    }
  }

  // All batches there ever were. Other requests use the slab as well.
  datatype State<T> = State(shards: seq<Shard>, batches: seq<Batch<T>>)

  // The shard of an insertion comes from a counter of the inserting thread, the key from the
  // shard's list of vacant ones: both may be any.
  datatype Step<T> =
    | Arrive(tasks: seq<Task<T>>)
    | StartNext(batch: nat, shard: nat, from: nat)
    | Complete(batch: nat, i: nat, body: Body<T>)
    | Drop(batch: nat)
    | ForeignInsert(shard: nat, from: nat)
    | ForeignRemove(shard: nat, key: nat)

  function Init<T>(): (s: State<T>) {
    State(seq(SHARD_COUNT, _ => Shard(map[], 0)), [])
  }

  // The loop body: a task that passes parsing gets a future in flight, with or without an entry
  // in the slab; one that does not is answered at once.
  function Launch<T>(shards: seq<Shard>, task: Task<T>, owner: Owner, shard: nat, from: nat): (r: (seq<Shard>, Future<T>))
    requires shard < |shards|
    ensures |r.0| == |shards|
  {
    match task.refused
    case Some(e) => (shards, Ready(Response(task.id, Failed(e))))
    case None =>
      var (after, token) := Insert(shards[shard], shard, from, owner);
      (shards[shard := after], InFlight(token))
  }

  function StartTask<T>(s: State<T>, b: nat, shard: nat, from: nat): (s': State<T>)
    requires b < |s.batches| && |s.batches[b].futures| < |s.batches[b].tasks| && shard < |s.shards|
  {
    var batch := s.batches[b];
    var n := |batch.futures|;
    var (shards, future) := Launch(s.shards, batch.tasks[n], BatchTask(b, n), shard, from);
    State(shards, s.batches[b := batch.(futures := batch.futures + [future])])
  }

  predicate MayComplete<T>(s: State<T>, b: nat, i: nat) {
    && b < |s.batches| && s.batches[b].Started() && !s.batches[b].dropped
    && i < |s.batches[b].tasks| && s.batches[b].futures[i].InFlight?
  }

  function CompleteTask<T>(s: State<T>, b: nat, i: nat, body: Body<T>): (s': State<T>)
    requires MayComplete(s, b, i)
  {
    var batch := s.batches[b];
    State(Remove(s.shards, batch.futures[i].token),
          s.batches[b := batch.(futures := batch.futures[i := Ready(Response(batch.tasks[i].id, body))])])
  }

  function Apply<T>(s: State<T>, step: Step<T>): (s': State<T>) {
    match step
    case Arrive(tasks) => s.(batches := s.batches + [Batch(tasks, [], false)])
    case StartNext(b, shard, from) =>
      if b < |s.batches| && |s.batches[b].futures| < |s.batches[b].tasks| && shard < |s.shards|
      then StartTask(s, b, shard, from) else s
    case Complete(b, i, body) => if MayComplete(s, b, i) then CompleteTask(s, b, i, body) else s
    case Drop(b) =>
      if b < |s.batches| && s.batches[b].Started() then s.(batches := s.batches[b := s.batches[b].(dropped := true)]) else s
    case ForeignInsert(shard, from) =>
      if shard < |s.shards|
      then s.(shards := s.shards[shard := Insert(s.shards[shard], shard, from, Foreign).0]) else s
    case ForeignRemove(shard, key) =>
      if shard < |s.shards| && key in s.shards[shard].entries && s.shards[shard].entries[key].owner.Foreign?
      then s.(shards := Remove(s.shards, Token(shard, s.shards[shard].entries[key].stamp, key))) else s
  }

  function Run<T>(s: State<T>, steps: seq<Step<T>>): (s': State<T>) {
    if steps == [] then s else Apply(Run(s, steps[..|steps| - 1]), steps[|steps| - 1])
  }

  // ---- the invariant ----

  // The token of future i of batch b, if it has one.
  function TokenOf<T>(s: State<T>, b: nat, i: nat): (t: Token) {
    if b < |s.batches| && i < |s.batches[b].futures| && s.batches[b].futures[i].InFlight?
    then s.batches[b].futures[i].token else Invalid
  }

  // The entry that a token names.
  predicate Holds(shards: seq<Shard>, t: Token, owner: Owner) {
    && t.Token? && t.shard < |shards| && t.key in shards[t.shard].entries
    && shards[t.shard].entries[t.key] == Entry(t.stamp, owner)
  }

  ghost predicate Owners<T>(s: State<T>) {
    forall b, i :: TokenOf(s, b, i).Token? ==> Holds(s.shards, TokenOf(s, b, i), BatchTask(b, i))
  }

  predicate Labelled<T>(s: State<T>, shard: nat, key: nat)
    requires shard < |s.shards| && key in s.shards[shard].entries
  {
    var e := s.shards[shard].entries[key];
    e.owner.BatchTask? ==> TokenOf(s, e.owner.batch, e.owner.index) == Token(shard, e.stamp, key)
  }

  ghost predicate Labels<T>(s: State<T>) {
    forall h, k :: 0 <= h < |s.shards| && k in s.shards[h].entries ==> Labelled(s, h, k)
  }

  ghost predicate Bounded(shards: seq<Shard>) {
    |shards| == 64 && forall h :: 0 <= h < |shards| ==> |shards[h].entries| <= 4096
  }

  // Future i belongs to task i.
  ghost predicate Matches<T>(f: Future<T>, task: Task<T>) {
    match f
    case InFlight(_) => task.refused.None?
    case Ready(r) => r.taskId == task.id && (task.refused.Some? ==> r.body == Failed(task.refused.value))
  }

  // No task has been completed: exactly those that passed parsing are in flight.
  ghost predicate Untouched<T>(batch: Batch<T>) {
    && |batch.futures| <= |batch.tasks|
    && forall i :: 0 <= i < |batch.futures| ==> (batch.futures[i].InFlight? <==> batch.tasks[i].refused.None?)
  }

  ghost predicate Orderly<T>(batch: Batch<T>) {
    && |batch.futures| <= |batch.tasks|
    && (forall i :: 0 <= i < |batch.futures| ==> Matches(batch.futures[i], batch.tasks[i]))
    && (!batch.Started() ==> Untouched(batch) && !batch.dropped)
  }

  ghost predicate Inv<T>(s: State<T>) {
    Bounded(s.shards) && Owners(s) && Labels(s) && forall b :: 0 <= b < |s.batches| ==> Orderly(s.batches[b])
  }

  // An insertion changes no entry that was there.
  lemma InsertKeeps(shards: seq<Shard>, h: nat, from: nat, owner: Owner, t: Token, o: Owner)
    requires h < |shards| && Holds(shards, t, o)
    ensures Holds(shards[h := Insert(shards[h], h, from, owner).0], t, o)
  {}

  lemma InsertBounds(shards: seq<Shard>, h: nat, from: nat, owner: Owner)
    requires Bounded(shards) && h < |shards|
    ensures Bounded(shards[h := Insert(shards[h], h, from, owner).0])
  {
    if !Full(shards[h]) {
      var key := FreeKey(shards[h].entries, from);
      var after := Insert(shards[h], h, from, owner).0.entries;
      assert after.Keys == shards[h].entries.Keys + {key};
      assert |after.Keys| == |after|;
    }
  }

  // A removal changes no entry of another owner.
  lemma RemoveKeeps(shards: seq<Shard>, gone: Token, owner: Owner, t: Token, o: Owner)
    requires Holds(shards, gone, owner) && Holds(shards, t, o) && (t.shard != gone.shard || t.key != gone.key)
    ensures Holds(Remove(shards, gone), t, o)
  {}

  lemma RemoveBounds(shards: seq<Shard>, gone: Token)
    requires Bounded(shards)
    ensures Bounded(Remove(shards, gone))
  {
    if Remove(shards, gone) != shards {
      var before, after := shards[gone.shard].entries, Remove(shards, gone)[gone.shard].entries;
      assert after.Keys == before.Keys - {gone.key};
      assert |after.Keys| == |after| && |before.Keys| == |before|;
    }
  }

  lemma StartKeepsOwners<T>(s: State<T>, b: nat, h: nat, from: nat)
    requires Inv(s) && b < |s.batches| && |s.batches[b].futures| < |s.batches[b].tasks| && h < |s.shards|
    ensures Owners(StartTask(s, b, h, from))
  {
    var s' := StartTask(s, b, h, from);
    var n := |s.batches[b].futures|;
    forall c, i | TokenOf(s', c, i).Token? ensures Holds(s'.shards, TokenOf(s', c, i), BatchTask(c, i)) {
      if c != b || i != n {
        assert TokenOf(s', c, i) == TokenOf(s, c, i);
        if s.batches[b].tasks[n].refused.None? {
          InsertKeeps(s.shards, h, from, BatchTask(b, n), TokenOf(s, c, i), BatchTask(c, i));
        }
      }
    }
  }

  lemma StartKeepsLabels<T>(s: State<T>, b: nat, h: nat, from: nat)
    requires Inv(s) && b < |s.batches| && |s.batches[b].futures| < |s.batches[b].tasks| && h < |s.shards|
    ensures Labels(StartTask(s, b, h, from))
  {
    var s' := StartTask(s, b, h, from);
    var n := |s.batches[b].futures|;
    forall g, k | 0 <= g < |s'.shards| && k in s'.shards[g].entries ensures Labelled(s', g, k) {
      var e := s'.shards[g].entries[k];
      if k in s.shards[g].entries && s.shards[g].entries[k] == e {
        assert Labelled(s, g, k);
        if e.owner.BatchTask? { SameToken(s, s', b, e.owner.batch, e.owner.index); }
      }
    }
  }

  // Appending a future changes no token that was there.
  lemma SameToken<T>(s: State<T>, s': State<T>, b: nat, c: nat, i: nat)
    requires b < |s.batches| && |s'.batches| == |s.batches|
    requires forall d :: 0 <= d < |s.batches| && d != b ==> s'.batches[d] == s.batches[d]
    requires s.batches[b].futures <= s'.batches[b].futures && TokenOf(s, c, i).Token?
    ensures TokenOf(s', c, i) == TokenOf(s, c, i)
  {}

  lemma StartKeepsInv<T>(s: State<T>, b: nat, h: nat, from: nat)
    requires Inv(s) && b < |s.batches| && |s.batches[b].futures| < |s.batches[b].tasks| && h < |s.shards|
    ensures Inv(StartTask(s, b, h, from))
  {
    StartKeepsOwners(s, b, h, from);
    StartKeepsLabels(s, b, h, from);
    InsertBounds(s.shards, h, from, BatchTask(b, |s.batches[b].futures|));
    assert Orderly(s.batches[b]);
  }

  lemma CompleteKeepsInv<T>(s: State<T>, b: nat, i: nat, body: Body<T>)
    requires Inv(s) && MayComplete(s, b, i)
    ensures Inv(CompleteTask(s, b, i, body))
  {
    var s' := CompleteTask(s, b, i, body);
    var gone := TokenOf(s, b, i);
    RemoveBounds(s.shards, gone);
    assert Orderly(s.batches[b]);
    forall c, j | TokenOf(s', c, j).Token? ensures Holds(s'.shards, TokenOf(s', c, j), BatchTask(c, j)) {
      assert TokenOf(s', c, j) == TokenOf(s, c, j);
      if gone.Token? { RemoveKeeps(s.shards, gone, BatchTask(b, i), TokenOf(s, c, j), BatchTask(c, j)); }
    }
    forall g, k | 0 <= g < |s'.shards| && k in s'.shards[g].entries ensures Labelled(s', g, k) {
      assert s'.shards[g].entries[k] == s.shards[g].entries[k];
      assert Labelled(s, g, k);
    }
  }

  lemma ForeignInsertKeepsInv<T>(s: State<T>, h: nat, from: nat)
    requires Inv(s) && h < |s.shards|
    ensures Inv(Apply(s, ForeignInsert(h, from)))
  {
    var s' := Apply(s, ForeignInsert(h, from));
    InsertBounds(s.shards, h, from, Foreign);
    forall c, j | TokenOf(s', c, j).Token? ensures Holds(s'.shards, TokenOf(s', c, j), BatchTask(c, j)) {
      InsertKeeps(s.shards, h, from, Foreign, TokenOf(s, c, j), BatchTask(c, j));
    }
    forall g, k | 0 <= g < |s'.shards| && k in s'.shards[g].entries ensures Labelled(s', g, k) {
      assert s'.shards[g].entries[k].owner.BatchTask? ==> k in s.shards[g].entries && Labelled(s, g, k);
    }
  }

  lemma ForeignRemoveKeepsInv<T>(s: State<T>, h: nat, key: nat)
    requires Inv(s) && h < |s.shards| && key in s.shards[h].entries && s.shards[h].entries[key].owner.Foreign?
    ensures Inv(Apply(s, ForeignRemove(h, key)))
  {
    var s' := Apply(s, ForeignRemove(h, key));
    var gone := Token(h, s.shards[h].entries[key].stamp, key);
    RemoveBounds(s.shards, gone);
    forall c, j | TokenOf(s', c, j).Token? ensures Holds(s'.shards, TokenOf(s', c, j), BatchTask(c, j)) {
      RemoveKeeps(s.shards, gone, Foreign, TokenOf(s, c, j), BatchTask(c, j));
    }
    forall g, k | 0 <= g < |s'.shards| && k in s'.shards[g].entries ensures Labelled(s', g, k) {
      assert Labelled(s, g, k);
    }
  }

  // Arriving and dropping touch neither futures nor the slab.
  lemma QuietKeepsInv<T>(s: State<T>, step: Step<T>)
    requires Inv(s) && (step.Arrive? || step.Drop?)
    ensures Inv(Apply(s, step))
  {
    var s' := Apply(s, step);
    assert forall c: nat, j: nat :: TokenOf(s', c, j) == TokenOf(s, c, j);
    forall g, k | 0 <= g < |s'.shards| && k in s'.shards[g].entries ensures Labelled(s', g, k) {
      assert Labelled(s, g, k);
    }
  }

  lemma StepKeepsInv<T>(s: State<T>, step: Step<T>)
    requires Inv(s)
    ensures Inv(Apply(s, step))
  {
    match step {
      case Arrive(_) => QuietKeepsInv(s, step);
      case Drop(_) => QuietKeepsInv(s, step);
      case StartNext(b, shard, from) => if Apply(s, step) != s { StartKeepsInv(s, b, shard, from); }
      case Complete(b, i, body) => if MayComplete(s, b, i) { CompleteKeepsInv(s, b, i, body); }
      case ForeignInsert(shard, from) => if shard < |s.shards| { ForeignInsertKeepsInv(s, shard, from); }
      case ForeignRemove(shard, key) => if Apply(s, step) != s { ForeignRemoveKeepsInv(s, shard, key); }
    }
  }

  lemma InitInv<T>()
    ensures Inv(Init<T>())
  {
    assert forall h :: 0 <= h < SHARD_COUNT ==> Init<T>().shards[h].entries == map[];
  }

  lemma {:induction false} RunKeepsInv<T>(s: State<T>, steps: seq<Step<T>>)
    requires Inv(s)
    ensures Inv(Run(s, steps))
  {
    if steps != [] {
      RunKeepsInv(s, steps[..|steps| - 1]);
      StepKeepsInv(Run(s, steps[..|steps| - 1]), steps[|steps| - 1]);
    }
  }

  // ---- what the slab holds ----

  lemma HeldIff<T>(s: State<T>, b: nat, i: nat, t: Token)
    requires Inv(s)
    ensures Holds(s.shards, t, BatchTask(b, i)) <==> t.Token? && TokenOf(s, b, i) == t
  {
    if Holds(s.shards, t, BatchTask(b, i)) { assert Labelled(s, t.shard, t.key); }
  }

  // The entries of a batch are exactly the tokens of its unfinished tasks whose insertion was
  // accepted, each in its own place; all other entries belong to other requests.
  lemma UnfinishedTasksStayInSlab<T>(steps: seq<Step<T>>, b: nat, i: nat, t: Token)
    ensures var s := Run(Init<T>(), steps);
      Holds(s.shards, t, BatchTask(b, i)) <==> t.Token? && TokenOf(s, b, i) == t
  {
    InitInv<T>();
    RunKeepsInv(Init<T>(), steps);
    HeldIff(Run(Init<T>(), steps), b, i, t);
  }

  // Two unfinished tasks never share an entry, although stamps wrap round and keys are reused.
  lemma TokensAreDistinct<T>(steps: seq<Step<T>>, b: nat, i: nat, c: nat, j: nat)
    requires TokenOf(Run(Init<T>(), steps), b, i).Token? && TokenOf(Run(Init<T>(), steps), c, j).Token?
    ensures var t, u := TokenOf(Run(Init<T>(), steps), b, i), TokenOf(Run(Init<T>(), steps), c, j);
      t.shard == u.shard && t.key == u.key <==> (b, i) == (c, j)
  {
    UnfinishedTasksStayInSlab(steps, b, i, TokenOf(Run(Init<T>(), steps), b, i));
    UnfinishedTasksStayInSlab(steps, c, j, TokenOf(Run(Init<T>(), steps), c, j));
  }

  // Other requests come and go: an entry of theirs is made if there is room and goes again.
  lemma OthersComeAndGo<T>(s: State<T>, h: nat, from: nat)
    requires h < |s.shards| && !Full(s.shards[h])
    ensures var k := FreeKey(s.shards[h].entries, from);
      var came := Apply(s, ForeignInsert(h, from));
      var went := Apply(came, ForeignRemove(h, k));
      && came.batches == went.batches == s.batches && |came.shards| == |went.shards| == |s.shards|
      && came.shards[h].entries.Keys == s.shards[h].entries.Keys + {k} && came.shards[h].entries[k].owner.Foreign?
      && went.shards[h].entries == s.shards[h].entries
  {
    var k := FreeKey(s.shards[h].entries, from);
    var came := Apply(s, ForeignInsert(h, from));
    assert came.shards[h].entries - {k} == s.shards[h].entries;
  }

  // ---- what the caller gets ----

  function Collect<T>(futures: seq<Future<T>>): (rs: seq<Response<T>>)
    requires forall i :: 0 <= i < |futures| ==> futures[i].Ready?
    ensures |rs| == |futures| && forall i :: 0 <= i < |rs| ==> rs[i] == futures[i].response
  {
    seq(|futures|, i requires 0 <= i < |futures| => futures[i].response)
  }

  // The body that task i of batch b was completed with first.
  function FirstBody<T>(steps: seq<Step<T>>, b: nat, i: nat): (body: Option<Body<T>>) {
    if steps == [] then None
    else if FirstBody(steps[..|steps| - 1], b, i).Some? then FirstBody(steps[..|steps| - 1], b, i)
    else match steps[|steps| - 1]
      case Complete(c, j, body) => if b == c && i == j then Some(body) else None
      case _ => None
  }

  // Whichever step starts the last task of a batch leaves it untouched.
  lemma StartedUntouched<T>(s: State<T>, step: Step<T>, b: nat)
    requires Inv(s) && b < |s.batches| && !s.batches[b].Started()
    ensures b < |Apply(s, step).batches| && Untouched(Apply(s, step).batches[b])
  {
    assert Orderly(s.batches[b]);
  }

  // A started batch as any further run leaves it: the tasks are the same, a dropped batch stays
  // dropped, and a task has the body it was completed with first, or is still in flight.
  ghost predicate Follows<T>(before: Batch<T>, after: Batch<T>, i: nat, first: Option<Body<T>>)
    requires i < |before.tasks| && before.Started()
  {
    && after.tasks == before.tasks && after.Started() && (before.dropped ==> after.dropped)
    && match before.futures[i]
       case Ready(_) => after.futures[i] == before.futures[i]
       case InFlight(_) =>
         if after.futures[i].InFlight? then after.futures[i] == before.futures[i] && (first.None? || after.dropped)
         else first.Some? && after.futures[i] == Ready(Response(before.tasks[i].id, first.value))
  }

  lemma {:induction false} BodyFollows<T>(s: State<T>, steps: seq<Step<T>>, b: nat, i: nat)
    requires b < |s.batches| && s.batches[b].Started() && i < |s.batches[b].tasks|
    ensures b < |Run(s, steps).batches|
    ensures Follows(s.batches[b], Run(s, steps).batches[b], i, FirstBody(steps, b, i))
  {
    if steps != [] {
      BodyFollows(s, steps[..|steps| - 1], b, i);
      StepFollows(Run(s, steps[..|steps| - 1]), steps[|steps| - 1], b, i);
    }
  }

  lemma StepFollows<T>(s: State<T>, step: Step<T>, b: nat, i: nat)
    requires b < |s.batches| && s.batches[b].Started() && i < |s.batches[b].tasks|
    ensures b < |Apply(s, step).batches|
    ensures var before, after := s.batches[b], Apply(s, step).batches[b];
      && after.tasks == before.tasks && after.Started() && (before.dropped ==> after.dropped)
      && after.futures[i] ==
         if step.Complete? && step.batch == b && step.i == i && before.futures[i].InFlight? && !before.dropped
         then Ready(Response(before.tasks[i].id, step.body)) else before.futures[i]
  {}

  // Whatever fails, whatever the slab refuses and in whatever order the tasks of all batches
  // finish: one response per task, in input order, with its task's id and its own outcome; and
  // no entry of the batch is left in the slab.
  lemma BatchAnswersEveryTask<T>(start: State<T>, b: nat, steps: seq<Step<T>>)
    requires Inv(start) && b < |start.batches| && start.batches[b].Started() && Untouched(start.batches[b])
    requires b < |Run(start, steps).batches| && Run(start, steps).batches[b].AllReady()
    ensures var tasks, rs := start.batches[b].tasks, Collect(Run(start, steps).batches[b].futures);
      && |rs| == |tasks|
      && (forall i :: 0 <= i < |tasks| ==> rs[i].taskId == tasks[i].id)
      && (forall i :: 0 <= i < |tasks| && tasks[i].refused.Some? ==> rs[i].body == Failed(tasks[i].refused.value))
      && (forall i :: 0 <= i < |tasks| && tasks[i].refused.None? ==> Some(rs[i].body) == FirstBody(steps, b, i))
    ensures forall t, i :: !Holds(Run(start, steps).shards, t, BatchTask(b, i))
  {
    RunKeepsInv(start, steps);
    var s, tasks := Run(start, steps), start.batches[b].tasks;
    assert Orderly(start.batches[b]);
    forall i | 0 <= i < |tasks|
      ensures Follows(start.batches[b], s.batches[b], i, FirstBody(steps, b, i)) && Matches(start.batches[b].futures[i], tasks[i])
    {
      BodyFollows(start, steps, b, i);
    }
    assert |s.batches[b].futures| == |tasks| by { FollowsTasks(start, b, steps); }
    forall t, i ensures !Holds(s.shards, t, BatchTask(b, i)) {
      HeldIff(s, b, i, t);
    }
  }

  lemma {:induction false} FollowsTasks<T>(s: State<T>, b: nat, steps: seq<Step<T>>)
    requires b < |s.batches| && s.batches[b].Started()
    ensures b < |Run(s, steps).batches| && Run(s, steps).batches[b].Started()
    ensures Run(s, steps).batches[b].tasks == s.batches[b].tasks
  {
    if steps != [] { FollowsTasks(s, b, steps[..|steps| - 1]); }
  }

  // ---- what a dropped batch leaves behind ----

  lemma {:induction false} DroppedIsFrozen<T>(s: State<T>, b: nat, steps: seq<Step<T>>)
    requires b < |s.batches| && s.batches[b].Started() && s.batches[b].dropped
    ensures b < |Run(s, steps).batches| && Run(s, steps).batches[b] == s.batches[b]
  {
    if steps != [] { DroppedIsFrozen(s, b, steps[..|steps| - 1]); }
  }

  // The entries of a dropped batch stay for good.
  lemma DroppedEntriesStay<T>(s: State<T>, b: nat, i: nat, steps: seq<Step<T>>)
    requires Inv(s) && b < |s.batches| && s.batches[b].dropped && TokenOf(s, b, i).Token?
    ensures TokenOf(Run(s, steps), b, i) == TokenOf(s, b, i)
    ensures Holds(Run(s, steps).shards, TokenOf(s, b, i), BatchTask(b, i))
  {
    assert Orderly(s.batches[b]);
    DroppedIsFrozen(s, b, steps);
    RunKeepsInv(s, steps);
  }

  // All places of a shard are taken by tasks of dropped batches.
  ghost predicate FullOfLeaks<T>(s: State<T>, h: nat) {
    && h < |s.shards| && Full(s.shards[h])
    && forall k :: k in s.shards[h].entries ==> Leaked(s, s.shards[h].entries[k].owner)
  }

  predicate Leaked<T>(s: State<T>, o: Owner) {
    o.BatchTask? && o.batch < |s.batches| && s.batches[o.batch].dropped
  }

  lemma CompleteSparesLeaks<T>(s: State<T>, b: nat, i: nat, h: nat)
    requires Inv(s) && FullOfLeaks(s, h) && MayComplete(s, b, i)
    ensures Remove(s.shards, s.batches[b].futures[i].token)[h] == s.shards[h]
  {
    HeldIff(s, b, i, TokenOf(s, b, i));
  }

  lemma LeaksKeepTheShard<T>(s: State<T>, step: Step<T>, h: nat)
    requires Inv(s) && FullOfLeaks(s, h)
    ensures h < |Apply(s, step).shards| && Apply(s, step).shards[h] == s.shards[h]
  {
    if step.Complete? && MayComplete(s, step.batch, step.i) { CompleteSparesLeaks(s, step.batch, step.i, h); }
  }

  lemma StaysDropped<T>(s: State<T>, step: Step<T>, b: nat)
    requires b < |s.batches| && s.batches[b].dropped
    ensures b < |Apply(s, step).batches| && Apply(s, step).batches[b].dropped
  {}

  lemma LeaksStay<T>(s: State<T>, step: Step<T>, h: nat)
    requires Inv(s) && FullOfLeaks(s, h)
    ensures FullOfLeaks(Apply(s, step), h)
  {
    LeaksKeepTheShard(s, step, h);
    var s' := Apply(s, step);
    forall k | k in s'.shards[h].entries ensures Leaked(s', s'.shards[h].entries[k].owner) {
      StaysDropped(s, step, s.shards[h].entries[k].owner.batch);
    }
  }

  lemma {:induction false} LeaksStayForGood<T>(s: State<T>, steps: seq<Step<T>>, h: nat)
    requires Inv(s) && FullOfLeaks(s, h)
    ensures FullOfLeaks(Run(s, steps), h)
  {
    if steps != [] {
      var front := steps[..|steps| - 1];
      LeaksStayForGood(s, front, h);
      RunKeepsInv(s, front);
      LeaksStay(Run(s, front), steps[|steps| - 1], h);
    }
  }

  // From then on every task that is sent to the shard goes without an entry.
  lemma FullShardRefusesForGood<T>(s: State<T>, steps: seq<Step<T>>, h: nat, b: nat, from: nat)
    requires Inv(s) && FullOfLeaks(s, h)
    requires var m := Run(s, steps);
      b < |m.batches| && |m.batches[b].futures| < |m.batches[b].tasks| && m.batches[b].tasks[|m.batches[b].futures|].refused.None?
    ensures var m := Run(s, steps);
      && Apply(m, StartNext(b, h, from)).batches[b].futures == m.batches[b].futures + [InFlight(Invalid)]
      && Apply(m, StartNext(b, h, from)).shards == m.shards
  {
    LeaksStayForGood(s, steps, h);
    var m := Run(s, steps);
    assert m.shards[h := m.shards[h]] == m.shards;
  }

  // ---- such a state is reached ----

  // As many tasks as the slab has places.
  function Many<T>(): (tasks: seq<Task<T>>)
    ensures |tasks| == SHARD_COUNT * SHARD_MAX_CAPACITY && forall i :: 0 <= i < |tasks| ==> tasks[i].refused.None?
  {
    seq(SHARD_COUNT * SHARD_MAX_CAPACITY, _ => Task(0, None))
  }

  // How many of n trackers go to shard h when the counter starts at the first one.
  function Share(n: nat, h: nat): (k: nat)
    requires h < SHARD_COUNT
  {
    (n + SHARD_COUNT - 1 - h) / SHARD_COUNT
  }

  lemma ShareGrows(n: nat, h: nat)
    requires h < SHARD_COUNT
    ensures Share(n + 1, h) == Share(n, h) + (if n % SHARD_COUNT == h then 1 else 0)
    ensures n < SHARD_COUNT * SHARD_MAX_CAPACITY && n % SHARD_COUNT == h ==> Share(n, h) < SHARD_MAX_CAPACITY
  {}

  // One batch of which n tasks have been started, shard by shard in turn.
  ghost predicate Filling<T>(s: State<T>, n: nat) {
    && |s.shards| == SHARD_COUNT
    && |s.batches| == 1 && s.batches[0].tasks == Many() && |s.batches[0].futures| == n
    && forall h :: 0 <= h < SHARD_COUNT ==> TakenBy(s.shards[h], Share(n, h))
  }

  // k places are taken, all by tasks of the first batch.
  ghost predicate TakenBy(shard: Shard, k: nat) {
    && |shard.entries| == k
    && forall key :: key in shard.entries ==> shard.entries[key].owner.BatchTask? && shard.entries[key].owner.batch == 0
  }

  lemma TakeOne(shard: Shard, id: nat, k: nat, n: nat)
    requires TakenBy(shard, k) && k < SHARD_MAX_CAPACITY
    ensures TakenBy(Insert(shard, id, 0, BatchTask(0, n)).0, k + 1)
  {
    var after := Insert(shard, id, 0, BatchTask(0, n)).0.entries;
    assert after.Keys == shard.entries.Keys + {FreeKey(shard.entries, 0)};
    assert |after.Keys| == |after| && |shard.entries.Keys| == |shard.entries|;
  }

  lemma FillOne<T>(s: State<T>, n: nat)
    requires Filling(s, n) && n < SHARD_COUNT * SHARD_MAX_CAPACITY
    ensures Filling(Apply(s, StartNext(0, n % SHARD_COUNT, 0)), n + 1)
  {
    var g := n % SHARD_COUNT;
    var s' := Apply(s, StartNext(0, g, 0));
    forall h | 0 <= h < SHARD_COUNT ensures TakenBy(s'.shards[h], Share(n + 1, h)) {
      ShareGrows(n, h);
      if h == g { TakeOne(s.shards[h], h, Share(n, h), n); }
    }
  }

  lemma FillShards<T>(n: nat) returns (steps: seq<Step<T>>)
    requires n <= SHARD_COUNT * SHARD_MAX_CAPACITY
    ensures Filling(Run(Init<T>(), steps), n)
  {
    if n == 0 {
      steps := [Arrive(Many())];
      assert steps[..0] == [];
    } else {
      var front := FillShards<T>(n - 1);
      steps := front + [StartNext(0, (n - 1) % SHARD_COUNT, 0)];
      RunOneMore(Init<T>(), front, StartNext(0, (n - 1) % SHARD_COUNT, 0));
      FillOne(Run(Init<T>(), front), n - 1);
    }
  }

  // One dropped batch, started by one thread, can close all shards for good.
  lemma LeaksFillTheSlab<T>() returns (steps: seq<Step<T>>)
    ensures Inv(Run(Init<T>(), steps))
    ensures forall h :: 0 <= h < SHARD_COUNT ==>
      FullOfLeaks(Run(Init<T>(), steps), h) && |Run(Init<T>(), steps).shards[h].entries| == 4096
  {
    var n := SHARD_COUNT * SHARD_MAX_CAPACITY;
    var front := FillShards<T>(n);
    steps := front + [Drop(0)];
    RunOneMore(Init<T>(), front, Drop(0));
    InitInv<T>();
    RunKeepsInv(Init<T>(), steps);
    DropLeaks(Run(Init<T>(), front), n);
  }

  lemma DropLeaks<T>(s: State<T>, n: nat)
    requires Filling(s, n) && n == SHARD_COUNT * SHARD_MAX_CAPACITY
    ensures forall h :: 0 <= h < SHARD_COUNT ==>
      FullOfLeaks(Apply(s, Drop(0)), h) && |Apply(s, Drop(0)).shards[h].entries| == 4096
  {
    forall h | 0 <= h < SHARD_COUNT
      ensures FullOfLeaks(Apply(s, Drop(0)), h) && |Apply(s, Drop(0)).shards[h].entries| == 4096
    {
      assert TakenBy(s.shards[h], Share(n, h)) && Share(n, h) == SHARD_MAX_CAPACITY;
    }
  }

  // ---- starting a batch ----

  // How many of the tasks ask for an entry.
  function Attempts<T>(tasks: seq<Task<T>>): (n: nat) {
    if tasks == [] then 0 else Attempts(tasks[..|tasks| - 1]) + (if tasks[|tasks| - 1].refused.None? then 1 else 0)
  }

  lemma CounterMoves<T>(tasks: seq<Task<T>>, n: nat, shardId: nat, next: nat)
    requires n < |tasks| && CounterAt(tasks, n, shardId, next)
    ensures CounterAt(tasks, n + 1, shardId, (next + if tasks[n].refused.None? then 1 else 0) % SHARD_COUNT)
  {
    assert tasks[..n + 1][..n] == tasks[..n];
  }

  // The state in which the last batch has the given futures so far.
  function Starting<T>(batches: seq<Batch<T>>, shards: seq<Shard>, tasks: seq<Task<T>>, futures: seq<Future<T>>): (s: State<T>) {
    State(shards, batches + [Batch(tasks, futures, false)])
  }

  lemma StartOne<T>(batches: seq<Batch<T>>, shards: seq<Shard>, tasks: seq<Task<T>>, futures: seq<Future<T>>, h: nat)
    requires |futures| < |tasks| && h < |shards|
    ensures var (after, future) := Launch(shards, tasks[|futures|], BatchTask(|batches|, |futures|), h, 0);
      Apply(Starting(batches, shards, tasks, futures), StartNext(|batches|, h, 0))
      == Starting(batches, after, tasks, futures + [future])
  {}

  lemma LaunchUntouched<T>(tasks: seq<Task<T>>, futures: seq<Future<T>>, shards: seq<Shard>, owner: Owner, h: nat)
    requires |futures| < |tasks| && h < |shards| && Untouched(Batch(tasks, futures, false))
    ensures Untouched(Batch(tasks, futures + [Launch(shards, tasks[|futures|], owner, h, 0).1], false))
  {}

  lemma RunOneMore<T>(s: State<T>, steps: seq<Step<T>>, step: Step<T>)
    ensures Run(s, steps + [step]) == Apply(Run(s, steps), step)
  {
    assert (steps + [step])[..|steps|] == steps;
  }

  // The run so far has launched the given futures and moved the counter from shardId to next.
  ghost predicate Launched<T>(
    s: State<T>, steps: seq<Step<T>>, shards: seq<Shard>, tasks: seq<Task<T>>, futures: seq<Future<T>>, shardId: nat, next: nat)
  {
    && Run(s, steps) == Starting(s.batches, shards, tasks, futures) && |shards| == SHARD_COUNT
    && |futures| <= |tasks| && Untouched(Batch(tasks, futures, false)) && CounterAt(tasks, |futures|, shardId, next)
  }

  ghost predicate CounterAt<T>(tasks: seq<Task<T>>, n: nat, shardId: nat, next: nat)
    requires n <= |tasks|
  {
    next == (shardId + Attempts(tasks[..n])) % SHARD_COUNT
  }

  lemma LaunchNone<T>(s: State<T>, tasks: seq<Task<T>>, shardId: nat)
    requires |s.shards| == SHARD_COUNT && shardId < SHARD_COUNT
    ensures Launched(s, [Arrive(tasks)], s.shards, tasks, [], shardId, shardId)
  {
    RunOneMore(s, [], Arrive(tasks));
    assert [] + [Arrive(tasks)] == [Arrive(tasks)];
  }

  lemma LaunchOne<T>(
    s: State<T>, steps: seq<Step<T>>, shards: seq<Shard>, tasks: seq<Task<T>>, futures: seq<Future<T>>, shardId: nat, next: nat)
    requires Launched(s, steps, shards, tasks, futures, shardId, next) && |futures| < |tasks|
    ensures var n := |futures|;
      var (after, future) := Launch(shards, tasks[n], BatchTask(|s.batches|, n), next, 0);
      Launched(s, steps + [StartNext(|s.batches|, next, 0)], after, tasks, futures + [future], shardId,
               (next + if tasks[n].refused.None? then 1 else 0) % SHARD_COUNT)
  {
    StartOne(s.batches, shards, tasks, futures, next);
    LaunchUntouched(tasks, futures, shards, BatchTask(|s.batches|, |futures|), next);
    RunOneMore(s, steps, StartNext(|s.batches|, next, 0));
    CounterMoves(tasks, |futures|, shardId, next);
  }

  // One task; the thread's counter moves on if the slab was asked.
  method StartOneTask<T>(slab: ShardedSlab, task: Task<T>, owner: Owner, shardId: nat) returns (future: Future<T>, next: nat)
    requires shardId < SHARD_COUNT == |slab.shards|
    modifies slab
    ensures (slab.shards, future) == Launch(old(slab.shards), task, owner, shardId, 0)
    ensures next == (shardId + if task.refused.None? then 1 else 0) % SHARD_COUNT
  {
    next := shardId;
    if task.refused.Some? {
      future := Ready(Response(task.id, Failed(task.refused.value)));
    } else {
      var token := slab.InsertInto(shardId, 0, owner);
      future := InFlight(token);
      next := (shardId + 1) % SHARD_COUNT;
    }
  }

  /**
   Parses the tasks in order and starts those that pass; the thread's counter picks the shards in
   turn. This is a run of the steps above, and leaves the batch untouched.
   */
  method StartBatch<T>(slab: ShardedSlab, tasks: seq<Task<T>>, b: nat, shardId: nat, ghost s: State<T>)
    returns (futures: seq<Future<T>>, next: nat, ghost steps: seq<Step<T>>)
    requires shardId < SHARD_COUNT == |slab.shards| && s.shards == slab.shards && b == |s.batches|
    modifies slab
    ensures Run(s, steps) == Starting(s.batches, slab.shards, tasks, futures)
    ensures |futures| == |tasks| && Untouched(Batch(tasks, futures, false))
    ensures next == (shardId + Attempts(tasks)) % SHARD_COUNT
  {
    futures, next, steps := [], shardId, [Arrive(tasks)];
    LaunchNone(s, tasks, shardId);
    for n := 0 to |tasks|
      invariant |futures| == n && Launched(s, steps, slab.shards, tasks, futures, shardId, next)
    {
      LaunchOne(s, steps, slab.shards, tasks, futures, shardId, next);
      steps := steps + [StartNext(b, next, 0)];
      var future;
      future, next := StartOneTask(slab, tasks[n], BatchTask(b, n), next);
      futures := futures + [future];
    }
    assert tasks[..|tasks|] == tasks;
  }
}
