/** The cursor machine of the importer's duplicate detection, proved against DuplicateSpec. */
module DuplicateDetector {
  import opened Wrappers
  import opened DuplicateSpec

  datatype Response = Pairs(pairs: seq<KvPair>) | KeyError(error: Error)

  class Detector {
    const scan: Scan
    var pos: nat     // the iterator; it is exhausted at |scan.entries|
    var valid: bool

    constructor (scan: Scan)
      ensures this.scan == scan && pos == 0 && valid
    {
      this.scan := scan;
      pos, valid := 0, true;
    }

    ghost predicate AtBoundary()
      reads this
    {
      scan.Sorted() && scan.Boundary(pos)
    }

    method IterNext()
      requires pos < |scan.entries|
      modifies `pos
      ensures pos == old(pos) + 1
    {
      pos := pos + 1;
    }

    // Skips the keys that were not touched by the import.
    method MoveToNextImportKey() returns (r: Result<Option<(Bytes, nat)>, Error>)
      requires AtBoundary()
      modifies `pos
      ensures old(pos) <= pos <= |scan.entries|
      ensures r.Ok? ==> AtBoundary() && scan.Uneventful(old(pos), pos)
      ensures r.Ok? && r.value.None? ==> pos == |scan.entries|
      ensures r.Ok? && r.value.Some? ==>
        && pos < |scan.entries| && scan.Imported(pos)
        && r.value.value == (scan.entries[pos].key, scan.entries[pos].commitTs)
      ensures r.Err? ==> scan.FirstFault(old(pos)) == Some(r.error) && scan.Report(old(pos), scan.FaultyKey(old(pos))) == []
    {
      ghost var g: nat := pos;   // the start of the key under the cursor
      while pos < |scan.entries|
        invariant scan.Passing(old(pos), g, pos)
      {
        var entry := scan.entries[pos];
        scan.PassStops(old(pos), g, pos);
        if entry.Unreadable? {
          return Err(Io);
        }
        if entry.commitTs > scan.minTs {
          return Ok(Some((entry.key, entry.commitTs)));
        }
        g := scan.PassOn(old(pos), g, pos);
        IterNext();
      }
      scan.PassStops(old(pos), g, pos);
      r := Ok(None);
    }

    // The cursor is on a version of the imported key that starts at p.
    ghost predicate InGroup(p: nat, startKey: Bytes)
      reads this
    {
      && p < |scan.entries| && scan.Imported(p) && scan.Is(p, Put)
      && p <= pos < scan.GroupEnd(p) && startKey == scan.entries[p].key
    }

    // Leaves the cursor on the next data version of the key, or past the key.
    method SkipLockAndRollback(startKey: Bytes, ghost p: nat) returns (r: Result<Option<Write>, Error>)
      requires InGroup(p, startKey) && scan.Scanned(p, pos + 1)
      modifies `pos
      ensures old(pos) < pos <= scan.GroupEnd(p)
      ensures r.Err? ==> scan.ScanFault(p, old(pos) + 1) == Some(r.error)
      ensures r.Ok? ==> scan.Quiet(p, old(pos) + 1, pos)
      ensures r.Ok? && r.value.Some? ==> OnData(p, r.value)
      ensures r.Ok? && r.value.None? ==> pos == scan.GroupEnd(p) && scan.EndFault(p).None?
    {
      IterNext();
      while pos < |scan.entries|
        invariant scan.Quiet(p, old(pos) + 1, pos)
      {
        var entry := scan.entries[pos];
        assert pos < scan.GroupEnd(p) <==> scan.SameKey(p, pos);
        scan.FaultHere(p, pos);
        if entry.Unreadable? {
          return Err(Io);
        }
        if entry.key != startKey {
          return Ok(None);
        }
        if entry.write.None? {
          return Err(BadRecord);
        }
        if entry.write.value.writeType.Put? || entry.write.value.writeType.Delete? {
          return Ok(entry.write);
        }
        scan.SkipRecord(p, old(pos) + 1, pos);
        IterNext();
      }
      r := Ok(None);
    }

    // The cursor is on a data version of the key.
    ghost predicate OnData(p: nat, write: Option<Write>)
      requires p < |scan.entries|
      reads this
    {
      && pos < scan.GroupEnd(p) && scan.entries[pos].Version? && scan.entries[pos].write == write
      && (scan.Is(pos, Put) || scan.Is(pos, Delete))
    }

    method SkipAllVersion(startKey: Bytes, ghost p: nat) returns (r: Result<(), Error>)
      requires InGroup(p, startKey)
      modifies `pos
      ensures scan.EndFault(p) == (if r.Err? then Some(r.error) else None)
      ensures r.Ok? ==> pos == scan.GroupEnd(p)
    {
      IterNext();
      while pos < |scan.entries|
        invariant p < pos <= scan.GroupEnd(p)
      {
        var entry := scan.entries[pos];
        assert pos < scan.GroupEnd(p) <==> scan.SameKey(p, pos);
        if entry.Unreadable? {
          return Err(Io);
        }
        if entry.key != startKey {
          break;
        }
        IterNext();
      }
      r := Ok(());
    }

    method MakeKvPair(key: Bytes, write: Option<Write>, ts: nat) returns (r: Result<KvPair, Error>)
      ensures key in scan.badKeys ==> r == Err(BadKey)
      ensures key !in scan.badKeys && write.None? ==> r == Ok(KvPair(key, [], ts))
      ensures key !in scan.badKeys && write.Some? ==>
        var v := scan.Lookup(key, write.value);
        r == if v.Ok? then Ok(KvPair(key, v.value, ts)) else Err(v.error)
    {
      if key in scan.badKeys {
        return Err(BadKey);
      }
      if write.None? {
        return Ok(KvPair(key, [], ts));
      }
      match write.value.shortValue {
        case Some(value) => r := Ok(KvPair(key, value, ts));
        case None =>
          if (key, write.value.startTs) !in scan.defaults {
            r := Err(MissingDefault);
          } else if scan.defaults[(key, write.value.startTs)].ReadFailed? {
            r := Err(Io);
          } else {
            r := Ok(KvPair(key, scan.defaults[(key, write.value.startTs)].value, ts));
          }
      }
    }

    // The newest version waits to be reported until an older one turns out to be a duplicate.
    ghost predicate Pending(p: nat, hi: nat, writeInfo: Option<Write>)
      requires p < hi <= |scan.entries| && scan.Is(p, Put)
    {
      writeInfo == if scan.keyOnly || scan.Older(p, hi) != [] then None else scan.entries[p].write
    }

    // Reports the duplicate under the cursor, and the newest version before the first one.
    method PushDuplicate(startKey: Bytes, endCommitTs: nat, writeInfo: Option<Write>, pairs: seq<KvPair>,
                         ghost p: nat, ghost base: seq<KvPair>)
      returns (r: Result<seq<KvPair>, Error>)
      requires InGroup(p, startKey) && p < pos && endCommitTs == scan.entries[p].commitTs
      requires scan.entries[pos].Version? && scan.entries[pos].key == startKey
      requires scan.Duplicate(p, pos) && Pending(p, pos, writeInfo) && pairs == base + scan.ReportUpTo(p, pos)
      ensures scan.ValueFault(p, pos) == (if r.Err? then Some(r.error) else None)
      ensures r.Ok? ==> r.value == base + scan.ReportUpTo(p, pos + 1)
    {
      var acc := pairs;
      if writeInfo.Some? {
        var first := MakeKvPair(startKey, writeInfo, endCommitTs);
        if first.Err? {
          return Err(first.error);
        }
        acc := acc + [first.value];
      }
      var write := if scan.keyOnly then None else scan.entries[pos].write;
      var pair := MakeKvPair(scan.entries[pos].key, write, scan.entries[pos].commitTs);
      if pair.Err? {
        return Err(pair.error);
      }
      scan.ReportGrows(p, pos, base, pairs);
      r := Ok(acc + [pair.value]);
    }

    // The versions of the key below hi are accounted for.
    ghost predicate Collected(p: nat, hi: nat, base: seq<KvPair>, pairs: seq<KvPair>, writeInfo: Option<Write>) {
      && p < hi <= |scan.entries| && scan.Imported(p) && scan.Is(p, Put) && hi <= scan.GroupEnd(p)
      && scan.Scanned(p, hi) && Pending(p, hi, writeInfo)
      && pairs == base + scan.ReportUpTo(p, hi) && scan.Fault(p) == scan.ScanFault(p, hi)
    }

    // The whole key is accounted for, without a fault.
    ghost predicate Complete(p: nat, base: seq<KvPair>, pairs: seq<KvPair>)
      reads this
    {
      && p < |scan.entries| && scan.Imported(p) && scan.Is(p, Put) && pos == scan.GroupEnd(p)
      && scan.Fault(p).None? && pairs == base + scan.ReportUpTo(p, scan.GroupEnd(p))
    }

    // The data version under the cursor: it is reported or not, and may be the last to look at.
    method InspectVersion(startKey: Bytes, endCommitTs: nat, current: Write, pairs: seq<KvPair>, writeInfo: Option<Write>,
                          ghost p: nat, ghost base: seq<KvPair>)
      returns (r: Result<(seq<KvPair>, Option<Write>), Error>, stop: bool)
      requires InGroup(p, startKey) && endCommitTs == scan.entries[p].commitTs
      requires Collected(p, pos, base, pairs, writeInfo) && OnData(p, Some(current))
      modifies `pos
      ensures r.Err? ==> scan.Fault(p) == Some(r.error)
      ensures r.Ok? && stop ==> Complete(p, base, r.value.0)
      ensures r.Ok? && !stop ==> pos == old(pos) && Collected(p, pos + 1, base, r.value.0, r.value.1)
    {
      var acc, info := pairs, writeInfo;
      var commitTs := scan.entries[pos].commitTs;
      assert scan.SameKey(p, pos);
      if current.writeType.Put? && (commitTs > scan.minTs || FenceHolds(current, scan.minTs)) {
        var pushed := PushDuplicate(startKey, endCommitTs, writeInfo, pairs, p, base);
        if pushed.Err? {
          return Err(pushed.error), false;
        }
        acc, info := pushed.value, None;
      }
      stop := current.writeType.Delete? || commitTs <= scan.minTs;
      if stop {
        scan.AfterStop(p, pos, scan.GroupEnd(p));
        var skipped := SkipAllVersion(startKey, p);
        if skipped.Err? {
          return Err(skipped.error), stop;
        }
      }
      r := Ok((acc, info));
    }

    // On to the next data version with what has been collected.
    method NextVersion(startKey: Bytes, ghost pairs: seq<KvPair>, ghost writeInfo: Option<Write>,
                       ghost p: nat, ghost base: seq<KvPair>)
      returns (next: Result<Option<Write>, Error>)
      requires InGroup(p, startKey) && Collected(p, pos + 1, base, pairs, writeInfo)
      modifies `pos
      ensures old(pos) < pos
      ensures next.Err? ==> scan.Fault(p) == Some(next.error)
      ensures next.Ok? && next.value.Some? ==>
        InGroup(p, startKey) && Collected(p, pos, base, pairs, writeInfo) && OnData(p, next.value)
      ensures next.Ok? && next.value.None? ==> Complete(p, base, pairs)
    {
      next := SkipLockAndRollback(startKey, p);
      scan.FaultHere(p, pos);
    }

    method CollectCurrentKeyDuplicate(startKey: Bytes, endCommitTs: nat, pairs: seq<KvPair>)
      returns (r: Result<seq<KvPair>, Error>)
      requires AtBoundary() && pos < |scan.entries| && scan.Imported(pos)
      requires startKey == scan.entries[pos].key && endCommitTs == scan.entries[pos].commitTs
      modifies `pos
      ensures scan.Fault(old(pos)) == (if r.Err? then Some(r.error) else None)
      ensures r.Ok? ==> pos == scan.GroupEnd(old(pos)) && r.value == pairs + scan.Group(old(pos))
    {
      ghost var p := pos;
      var newest := scan.entries[pos];
      if newest.write.None? {
        return Err(BadRecord);
      }
      if !newest.write.value.writeType.Put? {
        return Err(UnexpectedWrite(newest.write.value.writeType, endCommitTs));
      }
      var writeInfo := if scan.keyOnly then None else newest.write;
      var acc := pairs;
      var next := NextVersion(startKey, acc, writeInfo, p, pairs);
      while next.Ok? && next.value.Some?
        invariant next.Err? ==> scan.Fault(p) == Some(next.error)
        invariant next.Ok? && next.value.Some? ==>
          InGroup(p, startKey) && Collected(p, pos, pairs, acc, writeInfo) && OnData(p, next.value)
        invariant next.Ok? && next.value.None? ==> Complete(p, pairs, acc)
        decreases |scan.entries| - pos
      {
        var inspected, stop := InspectVersion(startKey, endCommitTs, next.value.value, acc, writeInfo, p, pairs);
        if inspected.Err? {
          return Err(inspected.error);
        }
        acc, writeInfo := inspected.value.0, inspected.value.1;
        if stop {
          return Ok(acc);
        }
        next := NextVersion(startKey, acc, writeInfo, p, pairs);
      }
      r := if next.Err? then Err(next.error) else Ok(acc);
    }

    // One batch: the keys from `from` to `to`, closed by the key at `last`, which filled it, or
    // by the end of the range.
    ghost predicate Batch(from: nat, to: nat, pairs: seq<KvPair>, last: nat)
      requires from <= to <= |scan.entries|
    {
      && pairs != [] && pairs == scan.Report(from, to)
      && scan.FaultyKey(from) == scan.FaultyKey(to)
      && (if |pairs| < MAX_SCAN_BATCH_COUNT then to == |scan.entries| else FilledBy(last, to, |pairs|))
    }

    ghost predicate FilledBy(last: nat, to: nat, size: nat) {
      && last < |scan.entries| && scan.Boundary(last) && scan.GroupEnd(last) == to
      && size - |scan.Group(last)| < MAX_SCAN_BATCH_COUNT
    }

    // Goes on to the next imported key with what has been gathered since `from`.
    method NextKey(ghost from: nat, ghost pairs: seq<KvPair>) returns (key: Result<Option<(Bytes, nat)>, Error>)
      requires scan.Sorted() && scan.Gathered(from, pos, pairs)
      modifies `pos
      ensures old(pos) <= pos
      ensures key.Err? ==> scan.Fails(from, key.error)
      ensures key.Ok? ==> scan.Gathered(from, pos, pairs)
      ensures key.Ok? && key.value.None? ==> pos == |scan.entries|
      ensures key.Ok? && key.value.Some? ==>
        && pos < |scan.entries| && scan.Imported(pos)
        && key.value.value == (scan.entries[pos].key, scan.entries[pos].commitTs)
    {
      key := MoveToNextImportKey();
      if key.Ok? {
        scan.GatherNothing(from, old(pos), pos, pairs);
      } else {
        scan.FailsLater(from, old(pos), pairs, key.error);
      }
    }

    method TryNext() returns (r: Result<Option<seq<KvPair>>, Error>, ghost last: nat)
      requires AtBoundary()
      modifies `pos
      ensures r.Ok? ==> AtBoundary() && old(pos) <= pos
      ensures r.Ok? && r.value.Some? ==> Batch(old(pos), pos, r.value.value, last)
      ensures r.Ok? && r.value.None? ==> pos == |scan.entries| && scan.Uneventful(old(pos), pos)
      ensures r.Err? ==> scan.Fails(old(pos), r.error)
    {
      var ret: seq<KvPair> := [];
      last := pos;
      var key := NextKey(old(pos), ret);
      while key.Ok? && key.value.Some?
        invariant key.Err? ==> scan.Fails(old(pos), key.error)
        invariant key.Ok? ==> scan.Gathered(old(pos), pos, ret)
        invariant key.Ok? && key.value.Some? ==>
          && pos < |scan.entries| && scan.Imported(pos)
          && key.value.value == (scan.entries[pos].key, scan.entries[pos].commitTs)
        invariant key.Ok? && key.value.None? ==> pos == |scan.entries|
        decreases |scan.entries| - pos
      {
        last := pos;
        var collected := CollectCurrentKeyDuplicate(key.value.value.0, key.value.value.1, ret);
        if collected.Err? {
          scan.FailsAt(old(pos), last, ret, collected.error);
          return Err(collected.error), last;
        }
        scan.GatherKey(old(pos), last, ret);
        ret := collected.value;
        if |ret| >= MAX_SCAN_BATCH_COUNT {
          return Ok(Some(ret)), last;
        }
        key := NextKey(old(pos), ret);
      }
      r := if key.Err? then Err(key.error) else if ret == [] then Ok(None) else Ok(Some(ret));
    }

    // Nothing more can come.
    predicate Exhausted()
      reads this
    {
      !valid || pos == |scan.entries|
    }

    // The iterator interface: once it has returned None, or an error, it returns None forever.
    method Next() returns (r: Option<Response>, ghost last: nat)
      requires valid ==> AtBoundary()
      modifies this
      ensures valid ==> AtBoundary() && old(pos) <= pos
      ensures old(Exhausted()) ==> r.None? && valid == old(valid) && pos == old(pos)
      ensures r.None? ==> Exhausted() && (old(valid) ==> scan.Uneventful(old(pos), |scan.entries|))
      ensures r.Some? && r.value.Pairs? ==> old(valid) && valid && Batch(old(pos), pos, r.value.pairs, last)
      ensures r.Some? && r.value.KeyError? ==> old(valid) && !valid && scan.Fails(old(pos), r.value.error)
    {
      last := pos;
      if !valid {
        return None, last;
      }
      var batch;
      batch, last := TryNext();
      match batch {
        case Ok(Some(pairs)) => r := Some(Pairs(pairs));
        case Err(e) =>
          valid := false;
          r := Some(KeyError(e));
        case Ok(None) => r := None;
      }
    }
  }

  // The first n batches one after the other.
  function Concat(batches: seq<seq<KvPair>>, n: nat): (r: seq<KvPair>)
    requires n <= |batches|
  {
    if n == 0 then [] else Concat(batches, n - 1) + batches[n - 1]
  }

  // Each of the first n elements fits between its two cuts.
  ghost predicate Fit<T>(ok: (T, nat, nat) -> bool, xs: seq<T>, cuts: seq<nat>, n: nat)
    requires n <= |xs| && |cuts| == |xs| + 1
  {
    n == 0 || (Fit(ok, xs, cuts, n - 1) && ok(xs[n - 1], cuts[n - 1], cuts[n]))
  }

  ghost predicate AllFit<T>(ok: (T, nat, nat) -> bool, xs: seq<T>, cuts: seq<nat>) {
    |cuts| == |xs| + 1 && cuts[0] == 0 && Fit(ok, xs, cuts, |xs|)
  }

  // Batches of whole keys: batch i reports the keys that start in [cuts[i], cuts[i + 1]).
  ghost predicate Partition(scan: Scan, batches: seq<seq<KvPair>>, cuts: seq<nat>) {
    AllFit(Reporter(scan), batches, cuts)
  }

  ghost function Reporter(scan: Scan): (ok: (seq<KvPair>, nat, nat) -> bool) {
    (batch: seq<KvPair>, from: nat, to: nat) => ReportsKeys(scan, batch, from, to)
  }

  ghost predicate ReportsKeys(scan: Scan, batch: seq<KvPair>, from: nat, to: nat) {
    scan.Boundary(from) && scan.Boundary(to) && from < to && batch != [] && batch == scan.Report(from, to)
  }

  // The first n batches are full.
  ghost predicate Full(batches: seq<seq<KvPair>>, n: nat)
    requires n <= |batches|
  {
    n == 0 || (Full(batches, n - 1) && |batches[n - 1]| >= 4096)
  }

  lemma {:induction false} FitPrefix<T>(ok: (T, nat, nat) -> bool, xs: seq<T>, cuts: seq<nat>, n: nat, x: T, to: nat)
    requires n <= |xs| && |cuts| == |xs| + 1 && Fit(ok, xs, cuts, n)
    ensures Fit(ok, xs + [x], cuts + [to], n)
  {
    if n > 0 { FitPrefix(ok, xs, cuts, n - 1, x, to); }
  }

  lemma FitAppend<T>(ok: (T, nat, nat) -> bool, xs: seq<T>, cuts: seq<nat>, x: T, to: nat)
    requires AllFit(ok, xs, cuts) && ok(x, cuts[|xs|], to)
    ensures AllFit(ok, xs + [x], cuts + [to])
  {
    FitPrefix(ok, xs, cuts, |xs|, x, to);
  }

  lemma {:induction false} ConcatPrefix(batches: seq<seq<KvPair>>, batch: seq<KvPair>, n: nat)
    requires n <= |batches|
    ensures Concat(batches + [batch], n) == Concat(batches, n)
    ensures Full(batches + [batch], n) == Full(batches, n)
  {
    if n > 0 { ConcatPrefix(batches, batch, n - 1); }
  }

  lemma ConcatAppend(batches: seq<seq<KvPair>>, batch: seq<KvPair>)
    ensures Concat(batches + [batch], |batches| + 1) == Concat(batches, |batches|) + batch
  {
    ConcatPrefix(batches, batch, |batches|);
  }

  lemma PartitionAppend(scan: Scan, batches: seq<seq<KvPair>>, cuts: seq<nat>, batch: seq<KvPair>, to: nat)
    requires Partition(scan, batches, cuts) && ReportsKeys(scan, batch, cuts[|batches|], to)
    ensures Partition(scan, batches + [batch], cuts + [to])
  {
    FitAppend(Reporter(scan), batches, cuts, batch, to);
  }

  lemma AppendBatch(scan: Scan, batches: seq<seq<KvPair>>, cuts: seq<nat>, batch: seq<KvPair>, to: nat)
    requires Partition(scan, batches, cuts) && ReportsKeys(scan, batch, cuts[|batches|], to)
    requires Concat(batches, |batches|) == scan.Report(0, cuts[|batches|])
    ensures Partition(scan, batches + [batch], cuts + [to])
    ensures Concat(batches + [batch], |batches| + 1) == scan.Report(0, to)
  {
    PartitionAppend(scan, batches, cuts, batch, to);
    ConcatAppend(batches, batch);
    scan.ReportAppend(0, cuts[|batches|], to);
  }

  lemma FullAppend(batches: seq<seq<KvPair>>, batch: seq<KvPair>)
    requires Full(batches, |batches|)
    ensures Full(batches + [batch], |batches|)
    ensures |batch| >= MAX_SCAN_BATCH_COUNT ==> Full(batches + [batch], |batches| + 1)
  {
    ConcatPrefix(batches, batch, |batches|);
  }

  // The batches so far report the keys up to pos.
  ghost predicate Reported(scan: Scan, batches: seq<seq<KvPair>>, cuts: seq<nat>, pos: nat) {
    && Partition(scan, batches, cuts) && cuts[|batches|] == pos && scan.Boundary(pos)
    && Concat(batches, |batches|) == scan.Report(0, pos) && scan.FaultyKey(0) == scan.FaultyKey(pos)
  }

  // All are full unless the range is at its end, where the last may not be.
  ghost predicate Filled(scan: Scan, batches: seq<seq<KvPair>>, pos: nat) {
    && (batches != [] ==> Full(batches, |batches| - 1))
    && (pos < |scan.entries| ==> Full(batches, |batches|))
  }

  lemma ReportedMore(scan: Scan, batches: seq<seq<KvPair>>, cuts: seq<nat>, pos: nat, batch: seq<KvPair>, to: nat)
    requires Reported(scan, batches, cuts, pos) && ReportsKeys(scan, batch, pos, to) && scan.FaultyKey(pos) == scan.FaultyKey(to)
    ensures Reported(scan, batches + [batch], cuts + [to], to)
  {
    AppendBatch(scan, batches, cuts, batch, to);
  }

  lemma FilledMore(scan: Scan, batches: seq<seq<KvPair>>, pos: nat, batch: seq<KvPair>, to: nat)
    requires Filled(scan, batches, pos) && pos < to <= |scan.entries|
    requires |batch| < MAX_SCAN_BATCH_COUNT ==> to == |scan.entries|
    ensures Filled(scan, batches + [batch], to)
  {
    FullAppend(batches, batch);
  }

  // What a whole detection comes to. Without a fault it is the whole report. With one, all
  // batches are full, and less than a batch is lost between them and the faulty key.
  ghost predicate Detected(scan: Scan, batches: seq<seq<KvPair>>, error: Option<Error>, cuts: seq<nat>) {
    && error == scan.FirstFault(0)
    && Partition(scan, batches, cuts)
    && cuts[|batches|] <= scan.FaultyKey(0) && Concat(batches, |batches|) == scan.Report(0, cuts[|batches|])
    && (if error.None? then
          Concat(batches, |batches|) == scan.Report(0, |scan.entries|) && (batches != [] ==> Full(batches, |batches| - 1))
        else Full(batches, |batches|) && |scan.Report(cuts[|batches|], scan.FaultyKey(0))| < 4096)
  }

  lemma DetectionEnds(scan: Scan, batches: seq<seq<KvPair>>, cuts: seq<nat>, pos: nat)
    requires Reported(scan, batches, cuts, pos) && Filled(scan, batches, pos) && scan.Uneventful(pos, |scan.entries|)
    ensures Detected(scan, batches, None, cuts)
  {
    scan.ReportAppend(0, pos, |scan.entries|);
  }

  lemma DetectionFails(scan: Scan, batches: seq<seq<KvPair>>, cuts: seq<nat>, pos: nat, e: Error)
    requires Reported(scan, batches, cuts, pos) && Filled(scan, batches, pos) && scan.Fails(pos, e)
    ensures Detected(scan, batches, Some(e), cuts)
  {}

  /** A whole detection run: the consumer pulls responses until None. */
  method Detect(scan: Scan) returns (batches: seq<seq<KvPair>>, error: Option<Error>, ghost cuts: seq<nat>)
    requires scan.Sorted()
    ensures Detected(scan, batches, error, cuts)
  {
    var d := new Detector(scan);
    batches, error, cuts := [], None, [0];
    var running := true;
    while running
      invariant d.scan == scan && fresh(d)
      invariant running ==> error.None? && d.valid && d.AtBoundary()
      invariant running ==> Reported(scan, batches, cuts, d.pos) && Filled(scan, batches, d.pos)
      invariant !running ==> Detected(scan, batches, error, cuts)
      decreases running, |scan.entries| - d.pos
    {
      ghost var from := d.pos;
      var response;
      ghost var last;
      response, last := d.Next();
      match response {
        case None =>
          DetectionEnds(scan, batches, cuts, from);
          running := false;
        case Some(KeyError(e)) =>
          DetectionFails(scan, batches, cuts, from, e);
          error, running := Some(e), false;
        case Some(Pairs(pairs)) =>
          ReportedMore(scan, batches, cuts, from, pairs, d.pos);
          FilledMore(scan, batches, from, pairs, d.pos);
          batches, cuts := batches + [pairs], cuts + [d.pos];
      }
    }
  }
}
