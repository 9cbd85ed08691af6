/**
 The latch that keeps two ingest requests from working on one SST file. Requests take the latch
 of their files one at a time, give everything back if one of them is missing, and otherwise
 keep all of them while the files are ingested.
 */
module IngestLatch {
  import opened Wrappers
  import opened Sums

  type Path = string

  // `Acquiring(k)`: the first k files have been tried. A file whose metadata names no path is None.
  datatype Phase = Acquiring(tried: nat) | RollingBack | Ingesting | Releasing | Conflicted | Ingested

  datatype Request = Request(files: seq<Option<Path>>, held: seq<Path>, phase: Phase)

  datatype State = State(slots: set<Path>, requests: seq<Request>)

  datatype Step = Arrive(files: seq<Option<Path>>) | Advance(request: nat)

  const Init := State({}, [])

  function AdvanceRequest(slots: set<Path>, r: Request): (n: (set<Path>, Request)) {
    match r.phase
    case Acquiring(k) =>
      if k < |r.files| then
        if r.files[k].Some? && r.files[k].value !in slots then
          (slots + {r.files[k].value}, r.(held := r.held + [r.files[k].value], phase := Acquiring(k + 1)))
        else (slots, r.(phase := Acquiring(k + 1)))
      else (slots, r.(phase := if |r.held| < |r.files| then RollingBack else Ingesting))
    case RollingBack => ReleaseOne(slots, r, Conflicted)
    case Ingesting => (slots, r.(phase := Releasing))
    case Releasing => ReleaseOne(slots, r, Ingested)
    case _ => (slots, r)
  }

  function ReleaseOne(slots: set<Path>, r: Request, end: Phase): (n: (set<Path>, Request)) {
    if r.held == [] then (slots, r.(phase := end)) else (slots - {r.held[0]}, r.(held := r.held[1..]))
  }

  // One atomic step of one request; a step that names no request changes nothing.
  function Apply(s: State, step: Step): (s': State) {
    match step
    case Arrive(files) => s.(requests := s.requests + [Request(files, [], Acquiring(0))])
    case Advance(i) =>
      if i >= |s.requests| then s else
      var (slots, r) := AdvanceRequest(s.slots, s.requests[i]);
      State(slots, s.requests[i := r])
  }

  function Run(s: State, steps: seq<Step>): (s': State) {
    if steps == [] then s else Apply(Run(s, steps[..|steps| - 1]), steps[|steps| - 1])
  }

  // ---- the invariant ----

  function Owns(p: Path): (w: Request -> nat) {
    (r: Request) => multiset(r.held)[p]
  }

  // A latched path has exactly one owner, which holds it once; any other path has none.
  ghost predicate Accounted(s: State, p: Path) {
    Total(s.requests, Owns(p)) == if p in s.slots then 1 else 0
  }

  ghost predicate Distinct(files: seq<Option<Path>>) {
    && (forall i :: 0 <= i < |files| ==> files[i].Some?)
    && (forall i, j :: 0 <= i < j < |files| ==> files[i] != files[j])
  }

  ghost predicate Shape(r: Request) {
    match r.phase
    case Acquiring(k) => k <= |r.files| && |r.held| <= k && (|r.held| == k ==> Covers(r.held, r.files[..k]))
    case RollingBack => true
    case Ingesting => Covers(r.held, r.files) && Distinct(r.files)
    case Releasing => Distinct(r.files)
    case Conflicted => r.held == []
    case Ingested => r.held == [] && Distinct(r.files)
  }

  ghost predicate Covers(held: seq<Path>, files: seq<Option<Path>>) {
    |held| == |files| && forall i :: 0 <= i < |files| ==> files[i] == Some(held[i])
  }

  ghost predicate Inv(s: State) {
    (forall p :: Accounted(s, p)) && (forall i :: 0 <= i < |s.requests| ==> Shape(s.requests[i]))
  }

  lemma HeldOnce(s: State, i: nat)
    requires Inv(s) && i < |s.requests|
    ensures forall p :: multiset(s.requests[i].held)[p] <= 1
    ensures forall p :: p in s.requests[i].held ==> p in s.slots
  {
    forall p ensures multiset(s.requests[i].held)[p] <= (if p in s.slots then 1 else 0) {
      assert Accounted(s, p);
      TotalAtLeast(s.requests, i, Owns(p));
    }
    forall p | p in s.requests[i].held ensures p in s.slots {
      assert p in multiset(s.requests[i].held);
    }
  }

  lemma CoversOnceIsDistinct(held: seq<Path>, files: seq<Option<Path>>)
    requires Covers(held, files) && forall p :: multiset(held)[p] <= 1
    ensures Distinct(files)
  {
    forall i, j | 0 <= i < j < |files| ensures files[i] != files[j] {
      if held[i] == held[j] {
        TwiceInMultiset(held, i, j);
      }
    }
  }

  lemma TwiceInMultiset<T>(xs: seq<T>, i: nat, j: nat)
    requires i < j < |xs| && xs[i] == xs[j]
    ensures multiset(xs)[xs[i]] >= 2
  {
    assert xs == xs[..j] + xs[j..];
    assert xs[i] in xs[..j] && xs[i] in xs[j..];
    assert xs[..j][i] == xs[i] && xs[j..][0] == xs[j];
  }

  // What one request gives and takes is what the latch set gains and loses.
  lemma AdvanceBalances(s: State, i: nat, p: Path)
    requires Inv(s) && i < |s.requests|
    ensures var (slots, r) := AdvanceRequest(s.slots, s.requests[i]);
      multiset(r.held)[p] + (if p in s.slots then 1 else 0) == multiset(s.requests[i].held)[p] + (if p in slots then 1 else 0)
  {
    var r := s.requests[i];
    HeldOnce(s, i);
    if r.held != [] && (r.phase.RollingBack? || r.phase.Releasing?) {
      assert r.held == [r.held[0]] + r.held[1..];
      assert r.held[0] in r.held;
      assert multiset(r.held) == multiset{r.held[0]} + multiset(r.held[1..]);
      assert multiset(r.held)[p] <= 1;
    }
  }

  lemma AdvanceShape(s: State, i: nat)
    requires Inv(s) && i < |s.requests|
    ensures Shape(AdvanceRequest(s.slots, s.requests[i]).1)
  {
    var r := s.requests[i];
    if r.phase.Acquiring? {
      if r.phase.tried < |r.files| {
        var r' := AdvanceRequest(s.slots, r).1;
        if |r'.held| == r'.phase.tried {
          assert Covers(r.held, r.files[..r.phase.tried]);
          forall j | 0 <= j < r'.phase.tried ensures r.files[..r'.phase.tried][j] == Some(r'.held[j]) {
            assert j < r.phase.tried ==> r.files[..r.phase.tried][j] == Some(r.held[j]);
          }
        }
      } else if |r.held| == |r.files| {
        assert r.files[..|r.files|] == r.files;
        HeldOnce(s, i);
        CoversOnceIsDistinct(r.held, r.files);
      }
    }
  }

  lemma StepKeepsInv(s: State, step: Step)
    requires Inv(s)
    ensures Inv(Apply(s, step))
  {
    var s' := Apply(s, step);
    match step {
      case Arrive(files) =>
        forall p ensures Accounted(s', p) {
          assert Accounted(s, p);
          TotalAppend(s.requests, Request(files, [], Acquiring(0)), Owns(p));
        }
      case Advance(i) =>
        if i < |s.requests| {
          AdvanceShape(s, i);
          forall p ensures Accounted(s', p) {
            assert Accounted(s, p);
            AdvanceBalances(s, i, p);
            TotalUpdate(s.requests, i, s'.requests[i], Owns(p));
          }
        }
    }
  }

  lemma {:induction false} RunKeepsInv(steps: seq<Step>)
    ensures Inv(Run(Init, steps))
  {
    if steps != [] {
      RunKeepsInv(steps[..|steps| - 1]);
      StepKeepsInv(Run(Init, steps[..|steps| - 1]), steps[|steps| - 1]);
    }
  }

  // ---- what every run guarantees ----

  // The latch set is the disjoint union of what the requests hold.
  lemma LatchIsDisjointUnion(steps: seq<Step>, p: Path)
    ensures var s := Run(Init, steps);
      && (p in s.slots <==> exists i :: 0 <= i < |s.requests| && p in s.requests[i].held)
      && (forall i, j :: 0 <= i < j < |s.requests| ==> !(p in s.requests[i].held && p in s.requests[j].held))
  {
    var s := Run(Init, steps);
    RunKeepsInv(steps);
    assert Accounted(s, p);
    TotalZero(s.requests, Owns(p));
    forall i, j | 0 <= i < j < |s.requests| ensures !(p in s.requests[i].held && p in s.requests[j].held) {
      TotalOfTwo(s.requests, i, j, Owns(p));
    }
  }

  // Two requests that ingest at the same time have no file in common.
  lemma IngestIsExclusive(steps: seq<Step>, i: nat, j: nat, a: nat, b: nat)
    requires var s := Run(Init, steps);
      && i < j < |s.requests| && s.requests[i].phase.Ingesting? && s.requests[j].phase.Ingesting?
      && a < |s.requests[i].files| && b < |s.requests[j].files|
    ensures var s := Run(Init, steps); s.requests[i].files[a] != s.requests[j].files[b]
  {
    var s := Run(Init, steps);
    RunKeepsInv(steps);
    assert Shape(s.requests[i]) && Shape(s.requests[j]);
    LatchIsDisjointUnion(steps, s.requests[i].held[a]);
  }

  // A request that names a file twice, or a file without a path, never gets to ingest.
  lemma RepeatedFileConflicts(steps: seq<Step>, i: nat)
    requires i < |Run(Init, steps).requests| && !Distinct(Run(Init, steps).requests[i].files)
    ensures var phase := Run(Init, steps).requests[i].phase;
      phase.Acquiring? || phase.RollingBack? || phase.Conflicted?
  {
    RunKeepsInv(steps);
    assert Shape(Run(Init, steps).requests[i]);
  }

  // release_lock always finds the path it is called with.
  lemma ReleaseFindsItsPath(steps: seq<Step>, i: nat)
    requires i < |Run(Init, steps).requests| && Run(Init, steps).requests[i].held != []
    ensures Run(Init, steps).requests[i].held[0] in Run(Init, steps).slots
  {
    RunKeepsInv(steps);
    HeldOnce(Run(Init, steps), i);
  }

  // An attempt that fails on a named file fails because some request owns it at that moment.
  lemma RefusalHasAnOwner(steps: seq<Step>, i: nat)
    requires var s := Run(Init, steps);
      && i < |s.requests| && s.requests[i].phase.Acquiring? && s.requests[i].phase.tried < |s.requests[i].files|
      && s.requests[i].files[s.requests[i].phase.tried].Some?
    ensures var s := Run(Init, steps);
      var p := s.requests[i].files[s.requests[i].phase.tried].value;
      (AdvanceRequest(s.slots, s.requests[i]).1.held == s.requests[i].held) <==>
      (exists j :: 0 <= j < |s.requests| && p in s.requests[j].held)
  {
    var s := Run(Init, steps);
    LatchIsDisjointUnion(steps, s.requests[i].files[s.requests[i].phase.tried].value);
  }

  lemma NothingLatchedWhenIdle(steps: seq<Step>)
    requires forall i :: 0 <= i < |Run(Init, steps).requests| ==>
      Run(Init, steps).requests[i].phase.Conflicted? || Run(Init, steps).requests[i].phase.Ingested?
    ensures Run(Init, steps).slots == {}
  {
    var s := Run(Init, steps);
    RunKeepsInv(steps);
    forall p ensures p !in s.slots {
      assert Accounted(s, p);
      forall i | 0 <= i < |s.requests| ensures Owns(p)(s.requests[i]) == 0 { assert Shape(s.requests[i]); }
      TotalZero(s.requests, Owns(p));
    }
  }

  // ---- one request on its own ----

  function Paths(files: seq<Option<Path>>): (r: set<Path>) {
    set i | 0 <= i < |files| && files[i].Some? :: files[i].value
  }

  function Advancing(): (f: ((set<Path>, Request)) -> (set<Path>, Request)) {
    (x: (set<Path>, Request)) => AdvanceRequest(x.0, x.1)
  }

  // n steps of one request while the others stand still.
  function Alone(slots: set<Path>, r: Request, n: nat): (after: (set<Path>, Request)) {
    Repeat(Advancing(), (slots, r), n)
  }

  lemma AloneOneMore(slots: set<Path>, r: Request, k: nat, s: set<Path>, q: Request)
    requires Alone(slots, r, k) == (s, q)
    ensures Alone(slots, r, k + 1) == AdvanceRequest(s, q)
  {}

  lemma AloneFurther(slots: set<Path>, r: Request, j: nat, s: set<Path>, q: Request, k: nat)
    requires Alone(slots, r, j) == (s, q)
    ensures Alone(slots, r, j + k) == Alone(s, q, k)
  {
    RepeatFurther(Advancing(), (slots, r), j, (s, q), k);
  }

  // One step, and what follows it.
  lemma AloneAfter(slots: set<Path>, r: Request, s: set<Path>, q: Request, k: nat)
    requires AdvanceRequest(slots, r) == (s, q)
    ensures Alone(slots, r, 1 + k) == Alone(s, q, k)
  {
    AloneOneMore(slots, r, 0, slots, r);
    AloneFurther(slots, r, 1, s, q, k);
  }

  lemma SetWithoutFirst(slots: set<Path>, held: seq<Path>)
    requires held != []
    ensures slots - {held[0]} - (set p | p in held[1..]) == slots - (set p | p in held)
  {
    assert held == [held[0]] + held[1..];
  }

  lemma {:induction false} ReleaseRun(slots: set<Path>, r: Request, end: Phase) returns (n: nat)
    requires (r.phase.RollingBack? && end.Conflicted?) || (r.phase.Releasing? && end.Ingested?)
    ensures Alone(slots, r, n) == (slots - (set p | p in r.held), r.(held := [], phase := end))
    decreases |r.held|
  {
    var (s, q) := AdvanceRequest(slots, r);
    if r.held == [] {
      n := 1;
      AloneAfter(slots, r, s, q, 0);
      assert slots - (set p | p in r.held) == slots;
    } else {
      var k := ReleaseRun(s, q, end);
      AloneAfter(slots, r, s, q, k);
      n := 1 + k;
      SetWithoutFirst(slots, r.held);
    }
  }

  // What a request does once it has tried all its files.
  lemma EndRun(slots: set<Path>, files: seq<Option<Path>>, held: seq<Path>) returns (n: nat)
    ensures Alone(slots, Request(files, held, Acquiring(|files|)), n)
      == (slots - (set p | p in held), Request(files, [], if |held| < |files| then Conflicted else Ingested))
  {
    var r := Request(files, held, Acquiring(|files|));
    if |held| < |files| {
      n := ReleaseRun(slots, r.(phase := RollingBack), Conflicted);
      AloneAfter(slots, r, slots, r.(phase := RollingBack), n);
      n := 1 + n;
    } else {
      n := ReleaseRun(slots, r.(phase := Releasing), Ingested);
      AloneAfter(slots, r.(phase := Ingesting), slots, r.(phase := Releasing), n);
      AloneAfter(slots, r, slots, r.(phase := Ingesting), 1 + n);
      n := 1 + (1 + n);
    }
  }

  // After k files: the latches of `metas` have been taken on top of `others`, which is all k of
  // them exactly if these are distinct paths that nobody else holds.
  ghost predicate Acquired(files: seq<Option<Path>>, k: nat, metas: seq<Path>, others: set<Path>, slots: set<Path>) {
    && k <= |files| && slots == others + (set p | p in metas)
    && Fresh(metas, others) && |metas| <= k
    && (|metas| == k <==> Distinct(files[..k]) && Paths(files[..k]) !! others)
    && (|metas| == k ==> Covers(metas, files[..k]))
  }

  lemma AcquireOne(files: seq<Option<Path>>, k: nat, metas: seq<Path>, others: set<Path>, slots: set<Path>)
    requires Acquired(files, k, metas, others, slots) && k < |files|
    ensures var (s, q) := AdvanceRequest(slots, Request(files, metas, Acquiring(k)));
      Acquired(files, k + 1, q.held, others, s) && q == Request(files, q.held, Acquiring(k + 1))
  {
    AcquiredPrefix(files, k, metas, others);
    var (s, q) := AdvanceRequest(slots, Request(files, metas, Acquiring(k)));
    if q.held != metas {
      assert (set p | p in q.held) == (set p | p in metas) + {files[k].value};
    }
  }

  lemma {:induction false} AcquireRun(others: set<Path>, files: seq<Option<Path>>, k: nat) returns (metas: seq<Path>)
    requires k <= |files|
    ensures Alone(others, Request(files, [], Acquiring(0)), k).1 == Request(files, metas, Acquiring(k))
    ensures Acquired(files, k, metas, others, Alone(others, Request(files, [], Acquiring(0)), k).0)
  {
    if k == 0 {
      metas := [];
      assert others + (set p | p in metas) == others;
    } else {
      var front := AcquireRun(others, files, k - 1);
      var (slots, r) := Alone(others, Request(files, [], Acquiring(0)), k - 1);
      AcquireOne(files, k - 1, front, others, slots);
      AloneOneMore(others, Request(files, [], Acquiring(0)), k - 1, slots, r);
      metas := AdvanceRequest(slots, r).1.held;
    }
  }

  // ---- the same within a run ----

  function Advances(i: nat, n: nat): (steps: seq<Step>) {
    if n == 0 then [] else Advances(i, n - 1) + [Advance(i)]
  }

  // Request i arrives and takes n steps while the others stand still.
  function Visit(s: State, files: seq<Option<Path>>, n: nat): (s': State) {
    Run(s, [Arrive(files)] + Advances(|s.requests|, n))
  }

  lemma VisitBegins(s: State, files: seq<Option<Path>>)
    ensures Visit(s, files, 0) == State(s.slots, s.requests + [Request(files, [], Acquiring(0))])
  {
    var steps := [Arrive(files)] + Advances(|s.requests|, 0);
    assert steps == [Arrive(files)] && steps[..0] == [];
    assert Run(s, steps) == Apply(Run(s, []), Arrive(files));
  }

  lemma VisitGoesOn(s: State, files: seq<Option<Path>>, n: nat)
    ensures Visit(s, files, n + 1) == Apply(Visit(s, files, n), Advance(|s.requests|))
  {
    var steps := [Arrive(files)] + Advances(|s.requests|, n + 1);
    assert steps[..|steps| - 1] == [Arrive(files)] + Advances(|s.requests|, n);
  }

  lemma {:induction false} VisitIsAlone(s: State, files: seq<Option<Path>>, n: nat)
    ensures var (slots, r) := Alone(s.slots, Request(files, [], Acquiring(0)), n);
      Visit(s, files, n) == State(slots, s.requests + [r])
  {
    if n == 0 {
      VisitBegins(s, files);
    } else {
      VisitIsAlone(s, files, n - 1);
      VisitGoesOn(s, files, n - 1);
      var (slots, r) := Alone(s.slots, Request(files, [], Acquiring(0)), n - 1);
      AloneOneMore(s.slots, Request(files, [], Acquiring(0)), n - 1, slots, r);
      StepOfLast(s.requests, slots, r);
    }
  }

  lemma StepOfLast(others: seq<Request>, slots: set<Path>, r: Request)
    ensures var (after, q) := AdvanceRequest(slots, r);
      Apply(State(slots, others + [r]), Advance(|others|)) == State(after, others + [q])
  {
    var q := AdvanceRequest(slots, r).1;
    assert (others + [r])[|others| := q] == others + [q];
  }

  // In every state an arriving request that is left to itself ingests exactly if its files are
  // distinct paths that nobody has latched, and conflicts otherwise; it leaves the latches and
  // the other requests as they were.
  lemma ArrivalDecides(s: State, files: seq<Option<Path>>) returns (n: nat)
    ensures Visit(s, files, n) == State(s.slots, s.requests +
      [Request(files, [], if Distinct(files) && Paths(files) !! s.slots then Ingested else Conflicted)])
  {
    var metas := AcquireRun(s.slots, files, |files|);
    var (slots, r) := Alone(s.slots, Request(files, [], Acquiring(0)), |files|);
    assert files[..|files|] == files;
    n := EndRun(slots, files, metas);
    AloneFurther(s.slots, Request(files, [], Acquiring(0)), |files|, slots, r, n);
    n := |files| + n;
    VisitIsAlone(s, files, n);
    assert slots - (set p | p in metas) == s.slots;
  }

  // On the way it ingests with exactly its own files latched on top of the others'.
  lemma ArrivalIngests(s: State, files: seq<Option<Path>>) returns (n: nat, metas: seq<Path>)
    requires Distinct(files) && Paths(files) !! s.slots
    ensures Covers(metas, files)
    ensures Visit(s, files, n) == State(s.slots + Paths(files), s.requests + [Request(files, metas, Ingesting)])
  {
    metas := AcquireRun(s.slots, files, |files|);
    var (slots, r) := Alone(s.slots, Request(files, [], Acquiring(0)), |files|);
    assert files[..|files|] == files;
    AloneOneMore(s.slots, Request(files, [], Acquiring(0)), |files|, slots, r);
    n := |files| + 1;
    VisitIsAlone(s, files, n);
    assert Paths(files) == set p | p in metas;
  }

  class Latch {
    var slots: set<Path>

    constructor ()
      ensures slots == {}
    {
      slots := {};
    }

    // Err stands for metadata that names no path.
    method AcquireLock(file: Option<Path>) returns (r: Result<bool, ()>)
      modifies this
      ensures file.None? ==> r.Err? && slots == old(slots)
      ensures file.Some? ==> r == Ok(file.value !in old(slots)) && slots == old(slots) + {file.value}
    {
      if file.None? {
        return Err(());
      }
      r := Ok(file.value !in slots);
      slots := slots + {file.value};
    }

    method ReleaseLock(p: Path) returns (removed: bool)
      modifies this
      ensures removed == (p in old(slots)) && slots == old(slots) - {p}
    {
      removed := p in slots;
      slots := slots - {p};
    }

    method AcquireAll(files: seq<Option<Path>>) returns (metas: seq<Path>)
      modifies this
      ensures Acquired(files, |files|, metas, old(slots), slots)
      ensures Alone(old(slots), Request(files, [], Acquiring(0)), |files|) == (slots, Request(files, metas, Acquiring(|files|)))
    {
      metas := [];
      for k := 0 to |files|
        invariant Acquired(files, k, metas, old(slots), slots)
        invariant Alone(old(slots), Request(files, [], Acquiring(0)), k) == (slots, Request(files, metas, Acquiring(k)))
      {
        AcquireOne(files, k, metas, old(slots), slots);
        AloneOneMore(old(slots), Request(files, [], Acquiring(0)), k, slots, Request(files, metas, Acquiring(k)));
        var got := AcquireLock(files[k]);
        if got == Ok(true) {
          metas := metas + [files[k].value];
        }
      }
    }

    method ReleaseAll(metas: seq<Path>)
      requires forall p :: p in metas ==> p in slots
      requires forall i, j :: 0 <= i < j < |metas| ==> metas[i] != metas[j]
      modifies this
      ensures slots == old(slots) - (set p | p in metas)
    {
      for i := 0 to |metas|
        invariant slots == old(slots) - (set p | p in metas[..i])
      {
        var removed := ReleaseLock(metas[i]);
        assert removed;
        assert metas[..i + 1] == metas[..i] + [metas[i]];
      }
      assert metas[..|metas|] == metas;
    }

    // The latch skeleton of an ingest request, with the latches of other requests already in
    // place: the request's steps taken at one go.
    method Ingest(files: seq<Option<Path>>, ghost s: State) returns (conflict: bool, ghost during: set<Path>, ghost n: nat)
      requires s.slots == slots
      modifies this
      ensures Visit(s, files, n) == State(slots, s.requests + [Request(files, [], if conflict then Conflicted else Ingested)])
      ensures slots == old(slots)
      ensures conflict <==> !(Distinct(files) && Paths(files) !! old(slots))
      ensures !conflict ==> during == old(slots) + Paths(files)
    {
      var metas := AcquireAll(files);
      assert files[..|files|] == files;
      conflict := |metas| < |files|;
      during := slots;
      if !conflict {
        assert Paths(files) == set p | p in metas;
      }
      n := EndRun(slots, files, metas);
      AloneFurther(old(slots), Request(files, [], Acquiring(0)), |files|, slots, Request(files, metas, Acquiring(|files|)), n);
      n := |files| + n;
      VisitIsAlone(s, files, n);
      ReleaseAll(metas);
    }
  }

  ghost predicate Fresh(metas: seq<Path>, others: set<Path>) {
    && (forall i, j :: 0 <= i < j < |metas| ==> metas[i] != metas[j])
    && (forall i :: 0 <= i < |metas| ==> metas[i] !in others)
  }

  lemma AcquiredPrefix(files: seq<Option<Path>>, k: nat, metas: seq<Path>, others: set<Path>)
    requires k < |files| && Fresh(metas, others) && |metas| <= k
    requires |metas| == k ==> Covers(metas, files[..k])
    requires |metas| == k <==> Distinct(files[..k]) && Paths(files[..k]) !! others
    ensures Distinct(files[..k + 1]) && Paths(files[..k + 1]) !! others
      <==> |metas| == k && files[k].Some? && files[k].value !in others && files[k].value !in metas
  {
    var a, b := files[..k], files[..k + 1];
    assert b == a + [files[k]];
    assert Paths(b) == Paths(a) + (if files[k].Some? then {files[k].value} else {}) by {
      forall p | p in Paths(a) ensures p in Paths(b) {
        var i :| 0 <= i < |a| && a[i].Some? && a[i].value == p;
        assert b[i] == a[i];
      }
      if files[k].Some? { assert b[k].Some? && b[k].value in Paths(b); }
    }
    assert Distinct(b) ==> Distinct(a) by {
      if Distinct(b) {
        assert forall i :: 0 <= i < |a| ==> b[i] == a[i];
      }
    }
    if |metas| == k {
      assert files[k].Some? && files[k].value in metas ==> exists i :: 0 <= i < k && b[i] == b[k];
    }
  }
}
