/**
 What the duplicate detector of the importer must report, stated over the whole
 CF_WRITE range at once: which versions of a user key count as duplicates, which
 keys make the scan fail, and what the in-order report of a range is.
 Nothing here mentions a cursor.
 */
module DuplicateSpec {
  import opened Wrappers

  const MAX_SCAN_BATCH_COUNT: nat := 4096

  datatype WriteType = Put | Delete | Lock | Rollback

  datatype Write = Write(writeType: WriteType, startTs: nat, shortValue: Option<Bytes>, gcFence: Option<nat>)

  // One position of the CF_WRITE iterator. An `Unreadable` position makes the iterator
  // or the key decoder fail; `write` is None when the value does not parse.
  datatype Entry = Unreadable | Version(key: Bytes, commitTs: nat, write: Option<Write>)

  datatype DefaultRead = Found(value: Bytes) | ReadFailed

  datatype KvPair = KvPair(key: Bytes, value: Bytes, commitTs: nat)

  datatype Error = UnexpectedWrite(writeType: WriteType, commitTs: nat) | BadRecord | BadKey | MissingDefault | Io

  // A write carries a usable value at readTs unless a non-zero GC fence at or below it says otherwise.
  predicate FenceHolds(w: Write, readTs: nat) {
    !(w.gcFence.Some? && w.gcFence.value != 0 && w.gcFence.value <= readTs)
  }

  predicate Before(a: Bytes, b: Bytes) {
    b != [] && (a == [] || a[0] < b[0] || (a[0] == b[0] && Before(a[1..], b[1..])))
  }

  lemma {:induction false} BeforeAsymmetric(a: Bytes, b: Bytes)
    requires Before(a, b)
    ensures a != b && !Before(b, a)
  {
    if a != [] && a[0] == b[0] {
      BeforeAsymmetric(a[1..], b[1..]);
    }
  }

  lemma Associate<T>(a: seq<T>, b: seq<T>, c: seq<T>)
    ensures a + (b + c) == (a + b) + c
  {}

  // A scan request: the CF_WRITE range in iterator order, the user keys that have no raw form,
  // CF_DEFAULT, and the two options.
  datatype Scan = Scan(
    entries: seq<Entry>, badKeys: set<Bytes>, defaults: map<(Bytes, nat), DefaultRead>, minTs: nat, keyOnly: bool)
  {

    // Iterator order: user key ascending, then commit timestamp strictly descending.
    ghost predicate Sorted() {
      forall i, j :: 0 <= i < j < |entries| ==> InOrder(i, j)
    }

    predicate InOrder(i: nat, j: nat)
      requires i < |entries| && j < |entries|
    {
      entries[i].Version? && entries[j].Version? ==>
        || Before(entries[i].key, entries[j].key)
        || (entries[i].key == entries[j].key && entries[i].commitTs > entries[j].commitTs)
    }

    predicate SameKey(i: nat, j: nat)
      requires i < |entries| && j < |entries|
    {
      entries[i].Version? && entries[j].Version? && entries[i].key == entries[j].key
    }

    // p is the first position of a user key (or of an unreadable position), or the end.
    predicate Boundary(p: nat) {
      p <= |entries| && (p == 0 || p == |entries| || !SameKey(p - 1, p))
    }

    predicate Is(j: nat, t: WriteType)
      requires j < |entries|
    {
      entries[j].Version? && entries[j].write.Some? && entries[j].write.value.writeType == t
    }

    // The first position at or after i that does not belong to the user key at p.
    function GroupEndFrom(p: nat, i: nat): (e: nat)
      requires p < i <= |entries|
      requires forall k :: p < k < i ==> SameKey(p, k)
      ensures i <= e <= |entries|
      ensures forall k :: p < k < e ==> SameKey(p, k)
      ensures e == |entries| || !SameKey(p, e)
      decreases |entries| - i
    {
      if i < |entries| && SameKey(p, i) then GroupEndFrom(p, i + 1) else i
    }

    function GroupEnd(p: nat): (e: nat)
      requires p < |entries|
      ensures p < e <= |entries|
      ensures forall k :: p < k < e ==> SameKey(p, k)
      ensures e == |entries| || !SameKey(p, e)
    {
      GroupEndFrom(p, p + 1)
    }

    // Versions older than k play no part in the report of the key: it is deleted at k,
    // or k is the newest data version that predates the import.
    predicate Stops(k: nat)
      requires k < |entries|
    {
      Is(k, Delete) || (Is(k, Put) && entries[k].commitTs <= minTs)
    }

    // No version strictly between p and j stops the report.
    predicate Scanned(p: nat, j: nat)
      requires j <= |entries|
    {
      j <= p + 1 || (Scanned(p, j - 1) && !Stops(j - 1))
    }

    // A put that may be reported: imported, or not cut off by a GC fence.
    predicate Usable(j: nat)
      requires j < |entries|
    {
      Is(j, Put) && (entries[j].commitTs > minTs || FenceHolds(entries[j].write.value, minTs))
    }

    // Version j is a duplicate of the newest version p of its key.
    predicate Duplicate(p: nat, j: nat)
      requires j < |entries|
    {
      Usable(j) && Scanned(p, j)
    }

    function ValueAt(j: nat): (r: Result<Bytes, Error>)
      requires j < |entries| && Is(j, Put)
    {
      Lookup(entries[j].key, entries[j].write.value)
    }

    function Lookup(key: Bytes, w: Write): (r: Result<Bytes, Error>) {
      if w.shortValue.Some? then Ok(w.shortValue.value)
      else if (key, w.startTs) !in defaults then Err(MissingDefault)
      else if defaults[(key, w.startTs)].ReadFailed? then Err(Io)
      else Ok(defaults[(key, w.startTs)].value)
    }

    predicate Resolves(j: nat)
      requires j < |entries| && Is(j, Put)
    {
      PairFault(j).None?
    }

    // What stands in the way of reporting j: its key, or its value.
    function PairFault(j: nat): (r: Option<Error>)
      requires j < |entries| && Is(j, Put)
    {
      if entries[j].key in badKeys then Some(BadKey)
      else if !keyOnly && ValueAt(j).Err? then Some(ValueAt(j).error)
      else None
    }

    function PairAt(j: nat): (r: KvPair)
      requires j < |entries| && Is(j, Put)
    {
      var value := if keyOnly || ValueAt(j).Err? then [] else ValueAt(j).value;
      KvPair(entries[j].key, value, entries[j].commitTs)
    }

    // The duplicates of p among the positions p+1 .. hi-1, newest first.
    function Older(p: nat, hi: nat): (r: seq<KvPair>)
      requires hi <= |entries|
    {
      if hi <= p + 1 then []
      else Older(p, hi - 1) + (if Duplicate(p, hi - 1) then [PairAt(hi - 1)] else [])
    }

    // The report once the positions below hi are accounted for. In key-only mode the
    // newest version itself is not reported.
    function ReportUpTo(p: nat, hi: nat): (r: seq<KvPair>)
      requires p < hi <= |entries| && Is(p, Put)
    {
      if Older(p, hi) == [] then [] else (if keyOnly then [] else [PairAt(p)]) + Older(p, hi)
    }

    // A duplicate at j is appended to the report, the first one behind the newest version.
    lemma ReportGrows(p: nat, j: nat, base: seq<KvPair>, pairs: seq<KvPair>)
      requires p < j < |entries| && Is(p, Put) && Duplicate(p, j) && pairs == base + ReportUpTo(p, j)
      ensures base + ReportUpTo(p, j + 1) ==
        (if keyOnly || Older(p, j) != [] then pairs else pairs + [PairAt(p)]) + [PairAt(j)]
    {
      assert Older(p, j + 1) == Older(p, j) + [PairAt(j)];
      Associate(base, ReportUpTo(p, j), [PairAt(j)]);
    }

    // The user key at p was written by the import, so its versions are inspected.
    predicate Imported(p: nat)
      requires p < |entries|
    {
      entries[p].Version? && entries[p].commitTs > minTs
    }

    function Group(p: nat): (r: seq<KvPair>)
      requires p < |entries|
    {
      if Imported(p) && Is(p, Put) then ReportUpTo(p, GroupEnd(p)) else []
    }

    // What goes wrong first when the key at p is processed; None if nothing does.
    function Fault(p: nat): (r: Option<Error>)
      requires p < |entries|
    {
      if entries[p].Unreadable? then Some(Io)
      else if !Imported(p) then None
      else if entries[p].write.None? then Some(BadRecord)
      else if !Is(p, Put) then Some(UnexpectedWrite(entries[p].write.value.writeType, entries[p].commitTs))
      else ScanFault(p, p + 1)
    }

    // The same from position j of the key on, when everything before j went well.
    function ScanFault(p: nat, j: nat): (r: Option<Error>)
      requires p < |entries| && p < j <= GroupEnd(p) && Is(p, Put)
      decreases |entries| - j
    {
      if j == GroupEnd(p) then EndFault(p)
      else
        assert SameKey(p, j);
        if entries[j].write.None? then Some(BadRecord)
        else if Usable(j) && ValueFault(p, j).Some? then ValueFault(p, j)
        else if Stops(j) then EndFault(p)
        else ScanFault(p, j + 1)
    }

    // Reporting j needs its pair and, the first time, the pair of the newest version.
    function ValueFault(p: nat, j: nat): (r: Option<Error>)
      requires p < |entries| && j < |entries| && Is(p, Put) && Is(j, Put)
    {
      if !keyOnly && Older(p, j) == [] && PairFault(p).Some? then PairFault(p) else PairFault(j)
    }

    // Leaving the key reads the position behind it.
    function EndFault(p: nat): (r: Option<Error>)
      requires p < |entries|
    {
      if GroupEnd(p) < |entries| && entries[GroupEnd(p)].Unreadable? then Some(Io) else None
    }

    // The in-order report of the user keys that start in [p, q).
    function Report(p: nat, q: nat): (r: seq<KvPair>)
      requires q <= |entries|
      decreases q - p
    {
      if p >= q then [] else Group(p) + Report(GroupEnd(p), q)
    }

    // The first user key from p on that faults, or the end.
    function FaultyKey(p: nat): (q: nat)
      requires p <= |entries|
      ensures p <= q <= |entries|
      ensures q < |entries| ==> Fault(q).Some?
      decreases |entries| - p
    {
      if p == |entries| || Fault(p).Some? then p else FaultyKey(GroupEnd(p))
    }

    // The first fault of the user keys from p on.
    function FirstFault(p: nat): (r: Option<Error>)
      requires p <= |entries|
    {
      if FaultyKey(p) == |entries| then None else Fault(FaultyKey(p))
    }

    // The user key at p can be processed: its newest version is a put, every record down to the
    // stopping one parses, every value it reports can be read, and the next key can be reached.
    ghost predicate Clean(p: nat)
      requires p < |entries|
    {
      entries[p].Version? && (Imported(p) ==> Is(p, Put) && EndFault(p).None? && CleanFrom(p, p + 1))
    }

    ghost predicate CleanFrom(p: nat, j: nat)
      requires p < |entries| && Is(p, Put)
    {
      forall i :: j <= i < GroupEnd(p) ==> CleanAt(p, i)
    }

    ghost predicate CleanAt(p: nat, i: nat)
      requires p < |entries| && i < |entries| && Is(p, Put)
    {
      && (Scanned(p, i) ==> entries[i].Version? && entries[i].write.Some?)
      && (Duplicate(p, i) ==> Resolves(i) && Resolves(p))
    }

    // An MVCC read at ts of the key whose versions start at j: the newest Put or Delete at or
    // below ts decides, and a Put with a binding GC fence is no value.
    function ReadAt(j: nat, end: nat, ts: nat): (r: Option<nat>)
      requires end <= |entries|
      ensures r.Some? ==> j <= r.value < end && Is(r.value, Put) && entries[r.value].commitTs <= ts
      decreases end - j
    {
      if j >= end then None
      else if Is(j, Put) && entries[j].commitTs <= ts then
        if FenceHolds(entries[j].write.value, ts) then Some(j) else None
      else if Is(j, Delete) && entries[j].commitTs <= ts then None
      else ReadAt(j + 1, end, ts)
    }

    ghost predicate DeletedSinceImport(p: nat)
      requires p < |entries|
    {
      exists k :: p < k < GroupEnd(p) && Is(k, Delete) && entries[k].commitTs > minTs
    }

    // ---- structure of a sorted range ----

    lemma GroupEndIsBoundary(p: nat)
      requires p < |entries|
      ensures Boundary(GroupEnd(p))
      ensures forall g :: p < g < GroupEnd(p) ==> !Boundary(g)
      ensures forall q :: p < q && Boundary(q) ==> GroupEnd(p) <= q
    {
      var e := GroupEnd(p);
      assert e - 1 == p || SameKey(p, e - 1);
      forall g | p < g < e ensures !Boundary(g) {
        assert g - 1 == p || SameKey(p, g - 1);
        assert SameKey(p, g);
      }
    }

    lemma OrderedInGroup(p: nat, i: nat, j: nat)
      requires Sorted() && p < |entries| && p <= i < j < GroupEnd(p)
      ensures entries[i].Version? && entries[j].Version?
      ensures entries[i].key == entries[j].key && entries[i].commitTs > entries[j].commitTs
    {
      assert InOrder(i, j);
      assert i == p || SameKey(p, i);
      assert SameKey(p, j);
      if Before(entries[i].key, entries[j].key) { BeforeAsymmetric(entries[i].key, entries[j].key); }
    }

    // A user key has one group: two readable group starts with no unreadable position
    // between them carry different keys, so no key is reported twice.
    lemma KeysAreDistinct(p: nat, q: nat)
      requires Sorted() && p < q < |entries| && Boundary(p) && Boundary(q)
      requires forall k :: p <= k <= q ==> entries[k].Version?
      ensures entries[p].key != entries[q].key
    {
      if entries[p].key == entries[q].key {
        var a, b := entries[q - 1].key, entries[q].key;
        assert p == q - 1 || InOrder(p, q - 1);
        assert InOrder(q - 1, q);
        if Before(a, b) { BeforeAsymmetric(a, b); }
      }
    }

    lemma NextBoundary(p: nat, q: nat)
      requires p < q && Boundary(q)
      ensures Boundary(GroupEnd(p)) && p < GroupEnd(p) <= q
    {
      GroupEndIsBoundary(p);
    }

    lemma {:induction false} ReportAppend(p: nat, q: nat, r: nat)
      requires Boundary(p) && Boundary(q) && Boundary(r) && p <= q <= r
      ensures Report(p, r) == Report(p, q) + Report(q, r)
      decreases q - p
    {
      if p < q {
        NextBoundary(p, q);
        ReportAppend(GroupEnd(p), q, r);
        Associate(Group(p), Report(GroupEnd(p), q), Report(q, r));
      }
    }

    // One more key on a report.
    lemma ReportNext(p: nat, q: nat)
      requires Boundary(p) && Boundary(q) && p <= q < |entries|
      ensures Boundary(GroupEnd(q)) && Report(p, GroupEnd(q)) == Report(p, q) + Group(q)
    {
      GroupEndIsBoundary(q);
      ReportAppend(p, q, GroupEnd(q));
      assert Report(q, GroupEnd(q)) == Group(q);
    }

    // ---- progress through the keys ----

    // From p to q there is nothing to report and nothing to fail on.
    ghost predicate Uneventful(p: nat, q: nat) {
      p <= q <= |entries| && Report(p, q) == [] && FaultyKey(p) == FaultyKey(q)
    }

    // Less than a batch has been gathered from the keys between p and q, none of which faults.
    ghost predicate Gathered(p: nat, q: nat, pairs: seq<KvPair>) {
      && p <= q <= |entries| && Boundary(p) && Boundary(q) && FaultyKey(p) == FaultyKey(q)
      && pairs == Report(p, q) && |pairs| < MAX_SCAN_BATCH_COUNT
    }

    // The keys from p on fault with e before they fill a batch; what they report before the
    // faulty key is lost.
    ghost predicate Fails(p: nat, e: Error) {
      p <= |entries| && FirstFault(p) == Some(e) && |Report(p, FaultyKey(p))| < MAX_SCAN_BATCH_COUNT
    }

    lemma {:induction false} FaultyKeyIsBoundary(p: nat)
      requires Boundary(p)
      ensures Boundary(FaultyKey(p))
      decreases |entries| - p
    {
      if p < |entries| && Fault(p).None? {
        GroupEndIsBoundary(p);
        FaultyKeyIsBoundary(GroupEnd(p));
      }
    }

    lemma GatherKey(p: nat, q: nat, pairs: seq<KvPair>)
      requires Gathered(p, q, pairs) && q < |entries| && Fault(q).None?
      ensures Boundary(GroupEnd(q)) && FaultyKey(p) == FaultyKey(GroupEnd(q))
      ensures Report(p, GroupEnd(q)) == pairs + Group(q)
    {
      ReportNext(p, q);
    }

    lemma GatherNothing(p: nat, q: nat, r: nat, pairs: seq<KvPair>)
      requires Gathered(p, q, pairs) && Boundary(r) && Uneventful(q, r)
      ensures Gathered(p, r, pairs)
    {
      ReportAppend(p, q, r);
    }

    // A key that the import did not touch is uneventful.
    lemma PassUntouched(p: nat, q: nat)
      requires Boundary(p) && Boundary(q) && Uneventful(p, q) && q < |entries| && entries[q].Version? && !Imported(q)
      ensures Boundary(GroupEnd(q)) && Uneventful(p, GroupEnd(q))
    {
      ReportNext(p, q);
    }

    // Within a key that the import did not touch every version is as old.
    lemma StaysUntouched(g: nat, i: nat)
      requires Sorted() && g < |entries| && entries[g].Version? && !Imported(g) && g <= i < GroupEnd(g)
      ensures entries[i].Version? && entries[i].commitTs <= minTs
    {
      if g < i { OrderedInGroup(g, g, i); }
    }

    // From p to i nothing is eventful; i belongs to the key at g, which the import did not touch if
    // i is not its first version.
    ghost predicate Passing(p: nat, g: nat, i: nat) {
      && Boundary(p) && Boundary(g) && g <= i <= |entries| && Uneventful(p, g)
      && (g < i ==> i < GroupEnd(g) && entries[g].Version? && !Imported(g))
    }

    lemma PassOn(p: nat, g: nat, i: nat) returns (h: nat)
      requires Sorted() && Passing(p, g, i) && i < |entries| && entries[i].Version? && entries[i].commitTs <= minTs
      ensures Passing(p, h, i + 1)
    {
      h := g;
      if i + 1 == GroupEnd(g) {
        PassUntouched(p, g);
        h := i + 1;
      }
    }

    lemma PassStops(p: nat, g: nat, i: nat)
      requires Sorted() && Passing(p, g, i)
      ensures i == |entries| || entries[i].Unreadable? || entries[i].commitTs > minTs ==> i == g
      ensures i < |entries| && entries[i].Unreadable? ==> FirstFault(p) == Some(Io) && Report(p, FaultyKey(p)) == []
    {
      if g < i { StaysUntouched(g, i); }
    }

    lemma FailsAt(p: nat, q: nat, pairs: seq<KvPair>, e: Error)
      requires Gathered(p, q, pairs) && q < |entries| && Fault(q) == Some(e)
      ensures Fails(p, e)
    {}

    lemma FailsLater(p: nat, q: nat, pairs: seq<KvPair>, e: Error)
      requires Gathered(p, q, pairs) && FirstFault(q) == Some(e) && Report(q, FaultyKey(q)) == []
      ensures Fails(p, e)
    {
      FaultyKeyIsBoundary(q);
      ReportAppend(p, q, FaultyKey(q));
    }

    lemma {:induction false} ScannedAt(p: nat, j: nat, k: nat)
      requires p < k < j <= |entries| && Scanned(p, j)
      ensures !Stops(k) && Scanned(p, k)
    {
      if k < j - 1 { ScannedAt(p, j - 1, k); }
    }

    lemma {:induction false} NotScannedAfter(p: nat, j: nat, k: nat)
      requires p < k < j <= |entries| && Stops(k)
      ensures !Scanned(p, j)
    {
      if k < j - 1 { NotScannedAfter(p, j - 1, k); }
    }

    // Nothing below a stopping version is reported.
    lemma {:induction false} AfterStop(p: nat, k: nat, hi: nat)
      requires p < k < hi <= |entries| && Stops(k)
      ensures Older(p, hi) == Older(p, k + 1)
      decreases hi
    {
      if hi > k + 1 {
        NotScannedAfter(p, hi - 1, k);
        AfterStop(p, k, hi - 1);
      }
    }

    // Between the positions i and j of the key nothing is reported and nothing fails.
    ghost predicate Quiet(p: nat, i: nat, j: nat)
      requires p < |entries| && Is(p, Put)
    {
      p < i <= j <= GroupEnd(p) && Scanned(p, j) && Older(p, j) == Older(p, i) && ScanFault(p, i) == ScanFault(p, j)
    }

    // A lock or rollback record changes nothing.
    lemma SkipRecord(p: nat, i: nat, j: nat)
      requires p < |entries| && Is(p, Put) && Quiet(p, i, j) && j < GroupEnd(p)
      requires Is(j, Lock) || Is(j, Rollback)
      ensures Quiet(p, i, j + 1)
    {
      assert SameKey(p, j);
    }

    // At the end of the key, or at a record that does not parse, the fault is known.
    lemma FaultHere(p: nat, j: nat)
      requires p < |entries| && Is(p, Put) && p < j <= GroupEnd(p)
      ensures j == GroupEnd(p) ==> ScanFault(p, j) == EndFault(p)
      ensures j < GroupEnd(p) && entries[j].Version? && entries[j].write.None? ==> ScanFault(p, j) == Some(BadRecord)
    {
      if j < GroupEnd(p) { assert SameKey(p, j); }
    }

    // The scan of a key fails exactly when the key is not clean.
    lemma FaultIffNotClean(p: nat)
      requires p < |entries|
      ensures Fault(p).None? <==> Clean(p)
    {
      if Imported(p) && Is(p, Put) {
        ScanFaultIffNotClean(p, p + 1);
      }
    }

    lemma {:induction false} ScanFaultIffNotClean(p: nat, j: nat)
      requires p < |entries| && p < j <= GroupEnd(p) && Is(p, Put)
      requires Scanned(p, j) && (Older(p, j) != [] ==> Resolves(p))
      ensures ScanFault(p, j).None? <==> EndFault(p).None? && CleanFrom(p, j)
      decreases |entries| - j
    {
      if j < GroupEnd(p) {
        assert SameKey(p, j);
        assert CleanFrom(p, j) <==> CleanAt(p, j) && CleanFrom(p, j + 1);
        if CleanAt(p, j) {
          if Stops(j) {
            forall i | j + 1 <= i < GroupEnd(p) ensures CleanAt(p, i) { NotScannedAfter(p, i, j); }
          } else {
            ScanFaultIffNotClean(p, j + 1);
          }
        }
      }
    }

    // ---- what a report looks like ----

    ghost predicate Descending(ps: seq<KvPair>) {
      forall i, j :: 0 <= i < j < |ps| ==> ps[i].commitTs > ps[j].commitTs
    }

    lemma DescendingAppend(ps: seq<KvPair>, x: KvPair)
      requires Descending(ps) && forall y :: y in ps ==> y.commitTs > x.commitTs
      ensures Descending(ps + [x])
    {}

    lemma {:induction false} OlderWithin(p: nat, hi: nat)
      requires Sorted() && p < |entries| && entries[p].Version? && p < hi <= GroupEnd(p)
      ensures entries[hi - 1].Version?
      ensures forall x :: x in Older(p, hi) ==>
        x.key == entries[p].key && entries[hi - 1].commitTs <= x.commitTs < entries[p].commitTs
    {
      if hi > p + 1 {
        OlderWithin(p, hi - 1);
        OrderedInGroup(p, p, hi - 1);
        OrderedInGroup(p, hi - 2, hi - 1);
      }
    }

    lemma {:induction false} OlderDescends(p: nat, hi: nat)
      requires Sorted() && p < |entries| && entries[p].Version? && p < hi <= GroupEnd(p)
      ensures Descending(Older(p, hi))
    {
      if hi > p + 1 {
        OlderDescends(p, hi - 1);
        OlderWithin(p, hi - 1);
        OrderedInGroup(p, hi - 2, hi - 1);
        if Duplicate(p, hi - 1) { DescendingAppend(Older(p, hi - 1), PairAt(hi - 1)); }
      }
    }

    lemma {:induction false} OlderImported(p: nat, hi: nat)
      requires hi <= |entries|
      ensures forall i :: 0 <= i < |Older(p, hi)| - 1 ==> Older(p, hi)[i].commitTs > minTs
      ensures Scanned(p, hi) ==> forall x :: x in Older(p, hi) ==> x.commitTs > minTs
    {
      if hi > p + 1 {
        OlderImported(p, hi - 1);
        assert Duplicate(p, hi - 1) ==> Scanned(p, hi - 1);
        assert Scanned(p, hi) ==> Scanned(p, hi - 1) && !Stops(hi - 1);
      }
    }

    lemma OlderShape(p: nat, hi: nat)
      requires Sorted() && p < |entries| && entries[p].Version? && p < hi <= GroupEnd(p)
      ensures Descending(Older(p, hi))
      ensures forall x :: x in Older(p, hi) ==> x.key == entries[p].key && x.commitTs < entries[p].commitTs
      ensures forall i :: 0 <= i < |Older(p, hi)| - 1 ==> Older(p, hi)[i].commitTs > minTs
    {
      OlderDescends(p, hi);
      OlderWithin(p, hi);
      OlderImported(p, hi);
    }

    // In value mode a key is reported with two or more versions or not at all; its versions
    // run from newest to oldest and only the last may predate the import.
    lemma GroupShape(p: nat)
      requires Sorted() && p < |entries|
      ensures Descending(Group(p))
      ensures forall x :: x in Group(p) ==> x.key == entries[p].key
      ensures forall i :: 0 <= i < |Group(p)| - 1 ==> Group(p)[i].commitTs > minTs
      ensures !keyOnly ==> |Group(p)| != 1
      ensures !keyOnly && Group(p) != [] ==> Group(p)[0] == PairAt(p)
    {
      if entries[p].Version? {
        OlderShape(p, GroupEnd(p));
      }
    }

    lemma {:induction false} OlderTail(p: nat, hi: nat)
      requires p < hi <= |entries|
      ensures forall j :: p < j < hi && Duplicate(p, j) ==> PairAt(j) in Older(p, hi)
      ensures forall x :: x in Older(p, hi) ==> exists j :: p < j < hi && Duplicate(p, j) && x == PairAt(j)
    {
      if hi > p + 1 {
        OlderTail(p, hi - 1);
      }
    }

    // The versions that predate the import stand in ReadAt's order.
    lemma {:induction false} ReadSkipsImported(p: nat, j: nat, k: nat)
      requires Sorted() && p < |entries| && p <= j <= k < GroupEnd(p) && Imported(p)
      requires forall i :: p <= i < k ==> !(Is(i, Put) || Is(i, Delete)) || entries[i].commitTs > minTs
      ensures ReadAt(j, GroupEnd(p), minTs) == ReadAt(k, GroupEnd(p), minTs)
      decreases k - j
    {
      if j < k {
        ReadSkipsImported(p, j + 1, k);
      }
    }

    // The one reported version that predates the import is exactly the version an MVCC read
    // at min_commit_ts would return, and it is reported exactly when such a read finds a value
    // and the key was not deleted after min_commit_ts.
    lemma TailIsMvccRead(p: nat)
      requires Sorted() && p < |entries| && Imported(p) && Clean(p)
      ensures (Group(p) != [] && Group(p)[|Group(p)| - 1].commitTs <= minTs)
        <==> (!DeletedSinceImport(p) && ReadAt(p, GroupEnd(p), minTs).Some?)
      ensures Group(p) != [] && Group(p)[|Group(p)| - 1].commitTs <= minTs ==>
        Group(p)[|Group(p)| - 1] == PairAt(ReadAt(p, GroupEnd(p), minTs).value)
    {
      if Group(p) != [] && Group(p)[|Group(p)| - 1].commitTs <= minTs { TailIsRead(p); }
      if !DeletedSinceImport(p) && ReadAt(p, GroupEnd(p), minTs).Some? { TailFromRead(p); }
    }

    lemma LastIsOlder(p: nat) returns (j: nat)
      requires p < |entries| && Group(p) != []
      ensures p < j < GroupEnd(p) && Duplicate(p, j) && Group(p)[|Group(p)| - 1] == PairAt(j)
    {
      var older := Older(p, GroupEnd(p));
      var last := older[|older| - 1];
      assert Group(p)[|Group(p)| - 1] == last && last in older;
      OlderTail(p, GroupEnd(p));
      j :| p < j < GroupEnd(p) && Duplicate(p, j) && last == PairAt(j);
    }

    lemma TailIsRead(p: nat)
      requires Sorted() && p < |entries| && Imported(p)
      requires Group(p) != [] && Group(p)[|Group(p)| - 1].commitTs <= minTs
      ensures !DeletedSinceImport(p) && ReadAt(p, GroupEnd(p), minTs).Some?
      ensures Group(p)[|Group(p)| - 1] == PairAt(ReadAt(p, GroupEnd(p), minTs).value)
    {
      var j := LastIsOlder(p);
      TailFromDuplicate(p, j);
    }

    lemma TailFromDuplicate(p: nat, j: nat)
      requires Sorted() && p < |entries| && Imported(p) && p < j < GroupEnd(p)
      requires Duplicate(p, j) && entries[j].commitTs <= minTs
      ensures !DeletedSinceImport(p)
      ensures ReadAt(p, GroupEnd(p), minTs) == Some(j)
    {
      forall k | p < k < GroupEnd(p) && Is(k, Delete) ensures entries[k].commitTs <= minTs {
        if k < j {
          ScannedAt(p, j, k);
        } else if j < k {
          OrderedInGroup(p, j, k);
        }
      }
      forall i | p <= i < j && (Is(i, Put) || Is(i, Delete)) ensures entries[i].commitTs > minTs {
        if i > p { ScannedAt(p, j, i); }
      }
      ReadSkipsImported(p, p, j);
    }

    lemma TailFromRead(p: nat)
      requires Sorted() && p < |entries| && Imported(p) && Clean(p)
      requires !DeletedSinceImport(p) && ReadAt(p, GroupEnd(p), minTs).Some?
      ensures Group(p) != [] && Group(p)[|Group(p)| - 1].commitTs <= minTs
    {
      var e := GroupEnd(p);
      var j := ReadAt(p, e, minTs).value;
      ReadIsNewest(p, p, e);
      assert p < j;
      NoStops(p, j);
      assert Duplicate(p, j);
      AfterStop(p, j, e);
      assert Older(p, j + 1)[|Older(p, j + 1)| - 1] == PairAt(j);
    }

    lemma {:induction false} NoStops(p: nat, j: nat)
      requires p < |entries| && j <= GroupEnd(p)
      requires !DeletedSinceImport(p)
      requires forall i :: p <= i < j && (Is(i, Put) || Is(i, Delete)) ==> entries[i].commitTs > minTs
      ensures Scanned(p, j)
    {
      if j > p + 1 { NoStops(p, j - 1); }
    }

    lemma {:induction false} ReadIsNewest(p: nat, j: nat, end: nat)
      requires end <= |entries| && ReadAt(j, end, minTs).Some?
      ensures FenceHolds(entries[ReadAt(j, end, minTs).value].write.value, minTs)
      ensures forall i :: j <= i < ReadAt(j, end, minTs).value && (Is(i, Put) || Is(i, Delete)) ==> entries[i].commitTs > minTs
      decreases end - j
    {
      if j < end && !(Is(j, Put) && entries[j].commitTs <= minTs) {
        ReadIsNewest(p, j + 1, end);
      }
    }

    // ---- the report in terms of the records ----

    // The value that a write stands for: its short value if it has one, else what CF_DEFAULT
    // holds for the key at the write's start timestamp.
    ghost predicate StandsFor(key: Bytes, w: Write, value: Bytes) {
      if w.shortValue.Some? then value == w.shortValue.value
      else (key, w.startTs) in defaults && defaults[(key, w.startTs)] == Found(value)
    }

    lemma LookupIff(key: Bytes, w: Write, value: Bytes)
      ensures Lookup(key, w) == Ok(value) <==> StandsFor(key, w, value)
      ensures Lookup(key, w) == Err(MissingDefault) <==> w.shortValue.None? && (key, w.startTs) !in defaults
      ensures Lookup(key, w) == Err(Io) <==>
        w.shortValue.None? && (key, w.startTs) in defaults && defaults[(key, w.startTs)].ReadFailed?
    {}

    // A record of the given type at i.
    ghost predicate Record(i: nat, t: WriteType) {
      i < |entries| && entries[i].Version? && entries[i].write.Some? && entries[i].write.value.writeType == t
    }

    // Between the newest version and i the key was neither deleted nor is there an older put that
    // predates the import.
    ghost predicate Reached(p: nat, i: nat) {
      forall k :: p < k < i ==> !Record(k, Delete) && !(Record(k, Put) && entries[k].commitTs <= minTs)
    }

    // Version i is to be reported: a put that is reached and was imported, or whose GC fence is
    // absent, zero or beyond min_commit_ts.
    ghost predicate Reportable(p: nat, i: nat) {
      && Record(i, Put) && Reached(p, i)
      && (|| entries[i].commitTs > minTs
          || entries[i].write.value.gcFence.None?
          || entries[i].write.value.gcFence.value == 0
          || entries[i].write.value.gcFence.value > minTs)
    }

    lemma {:induction false} ScannedIff(p: nat, i: nat)
      requires i <= |entries|
      ensures Scanned(p, i) <==> Reached(p, i)
    {
      if i > p + 1 {
        ScannedIff(p, i - 1);
        assert Stops(i - 1) <==> Record(i - 1, Delete) || (Record(i - 1, Put) && entries[i - 1].commitTs <= minTs);
      }
    }

    lemma DuplicateIff(p: nat, i: nat)
      requires i < |entries|
      ensures Duplicate(p, i) <==> Reportable(p, i)
    {
      ScannedIff(p, i);
    }

    // The pair of version i carries its key, its timestamp and, unless only keys are asked for,
    // the value it stands for.
    ghost predicate PairOf(x: KvPair, i: nat) {
      && i < |entries| && entries[i].Version? && entries[i].write.Some?
      && x.key == entries[i].key && x.commitTs == entries[i].commitTs
      && (if keyOnly then x.value == [] else StandsFor(x.key, entries[i].write.value, x.value))
    }

    lemma PairAtIs(i: nat)
      requires i < |entries| && Is(i, Put) && Resolves(i)
      ensures PairOf(PairAt(i), i)
    {
      if !keyOnly { LookupIff(entries[i].key, entries[i].write.value, PairAt(i).value); }
    }

    // The versions of a user key, and no others, share its group.
    lemma GroupIsOneKey(p: nat, i: nat)
      requires Sorted() && p < |entries| && entries[p].Version? && p < i <= |entries|
      ensures i < GroupEnd(p) ==> entries[i].Version? && entries[i].key == entries[p].key
      ensures i == GroupEnd(p) && i < |entries| && entries[i].Version? ==> entries[i].key != entries[p].key
    {
      if i < GroupEnd(p) { assert SameKey(p, i); }
    }

    // An older version is reported exactly if it is to be, and then with its own pair; the newest
    // exactly if some older one is and values are asked for; nothing else is.
    lemma ReportedIff(p: nat, x: KvPair)
      requires Sorted() && p < |entries| && entries[p].Version? && entries[p].commitTs > minTs && Clean(p)
      ensures x in Group(p) <==>
        || (exists i :: p < i < GroupEnd(p) && Reportable(p, i) && PairOf(x, i))
        || (!keyOnly && PairOf(x, p) && exists i :: p < i < GroupEnd(p) && Reportable(p, i))
    {
      OlderTail(p, GroupEnd(p));
      forall i | p < i < GroupEnd(p)
        ensures Reportable(p, i) <==> Duplicate(p, i)
        ensures Duplicate(p, i) ==> Resolves(i) && Resolves(p)
      {
        DuplicateIff(p, i);
        assert CleanAt(p, i);
      }
      OlderIff(p, x);
      if Older(p, GroupEnd(p)) != [] {
        var y := Older(p, GroupEnd(p))[0];
        assert y in Older(p, GroupEnd(p));
        if !keyOnly { PairIsUnique(p, x); }
      }
    }

    lemma OlderIff(p: nat, x: KvPair)
      requires p < |entries| && Is(p, Put) && CleanFrom(p, p + 1)
      ensures x in Older(p, GroupEnd(p)) <==> exists i :: p < i < GroupEnd(p) && Reportable(p, i) && PairOf(x, i)
    {
      var e := GroupEnd(p);
      OlderTail(p, e);
      if x in Older(p, e) {
        var i :| p < i < e && Duplicate(p, i) && x == PairAt(i);
        DuplicateIff(p, i);
        assert CleanAt(p, i);
        PairAtIs(i);
      }
      forall i | p < i < e && Reportable(p, i) && PairOf(x, i) ensures x in Older(p, e) {
        DuplicateIff(p, i);
        assert CleanAt(p, i);
        PairIsUnique(i, x);
      }
    }

    lemma PairIsUnique(i: nat, x: KvPair)
      requires i < |entries| && Is(i, Put) && Resolves(i)
      ensures PairOf(x, i) <==> x == PairAt(i)
    {
      PairAtIs(i);
      if !keyOnly && PairOf(x, i) { LookupIff(x.key, entries[i].write.value, x.value); }
    }

    // In particular every put of the import with no delete above it is found, with its value
    // spelled out.
    lemma ImportedDuplicateIsFound(p: nat, i: nat)
      requires Sorted() && p < |entries| && p < i < GroupEnd(p)
      requires entries[p].Version? && entries[p].commitTs > minTs && Clean(p)
      requires entries[i].Version? && entries[i].commitTs > minTs
      requires entries[i].write.Some? && entries[i].write.value.writeType == Put
      requires forall k :: p < k < i && entries[k].Version? && entries[k].write.Some? ==>
        entries[k].write.value.writeType != Delete
      ensures exists x ::
        && x in Group(p) && x.key == entries[p].key && x.commitTs == entries[i].commitTs
        && (keyOnly || StandsFor(x.key, entries[i].write.value, x.value))
    {
      forall k | p < k < i ensures !Record(k, Delete) && !(Record(k, Put) && entries[k].commitTs <= minTs) {
        OrderedInGroup(p, k, i);
      }
      assert Reportable(p, i);
      DuplicateIff(p, i);
      assert CleanAt(p, i);
      PairAtIs(i);
      ReportedIff(p, PairAt(i));
      assert SameKey(p, i);
    }

    // And of the versions above min_commit_ts only those are, besides the newest.
    lemma OnlyImportedDuplicatesAreFound(p: nat, x: KvPair)
      requires Sorted() && p < |entries| && entries[p].Version? && entries[p].commitTs > minTs && Clean(p)
      requires x in Group(p) && minTs < x.commitTs != entries[p].commitTs
      ensures exists i ::
        && p < i < GroupEnd(p) && entries[i].Version? && entries[i].write.Some?
        && entries[i].write.value.writeType == Put && x.commitTs == entries[i].commitTs && x.key == entries[i].key
        && (keyOnly || StandsFor(x.key, entries[i].write.value, x.value))
        && forall k :: p < k < i ==> !Record(k, Delete)
    {
      ReportedIff(p, x);
      var i :| p < i < GroupEnd(p) && Reportable(p, i) && PairOf(x, i);
    }

    // The pair of version i can be made: its key has a raw form and its value can be read.
    ghost predicate Readable(i: nat) {
      && i < |entries| && entries[i].Version? && entries[i].write.Some? && entries[i].key !in badKeys
      && (keyOnly || exists value :: StandsFor(entries[i].key, entries[i].write.value, value))
    }

    lemma ResolvesIff(i: nat)
      requires i < |entries| && Is(i, Put)
      ensures Resolves(i) <==> Readable(i)
    {
      if Resolves(i) {
        PairAtIs(i);
        assert keyOnly || StandsFor(entries[i].key, entries[i].write.value, PairAt(i).value);
      } else if !keyOnly && exists value :: StandsFor(entries[i].key, entries[i].write.value, value) {
        var value :| StandsFor(entries[i].key, entries[i].write.value, value);
        LookupIff(entries[i].key, entries[i].write.value, value);
      }
    }

    // A version that is reached parses, and one that is to be reported can be, with the newest.
    ghost predicate FineAt(p: nat, i: nat)
      requires i < |entries|
    {
      && (Reached(p, i) ==> entries[i].Version? && entries[i].write.Some?)
      && (Reportable(p, i) ==> Readable(i) && Readable(p))
    }

    lemma CleanAtIff(p: nat, i: nat)
      requires p < |entries| && i < |entries| && Is(p, Put)
      ensures CleanAt(p, i) <==> FineAt(p, i)
    {
      ScannedIff(p, i);
      DuplicateIff(p, i);
      ResolvesIff(p);
      if Duplicate(p, i) { ResolvesIff(i); }
    }

    // What it takes for a key to be processed without an error.
    lemma CleanIff(p: nat)
      requires p < |entries|
      ensures Clean(p) <==>
        entries[p].Version? &&
        (entries[p].commitTs > minTs ==>
           && Record(p, Put)
           && (GroupEnd(p) < |entries| ==> entries[GroupEnd(p)].Version?)
           && (forall i :: p < i < GroupEnd(p) ==> FineAt(p, i)))
    {
      if Is(p, Put) {
        forall i | p < i < GroupEnd(p) ensures CleanAt(p, i) <==> FineAt(p, i) { CleanAtIff(p, i); }
      }
    }

    // What the newest version of an imported key that cannot be processed gives.
    lemma NewestFault(p: nat)
      requires p < |entries| && entries[p].Version? && entries[p].commitTs > minTs && !Record(p, Put)
      ensures Fault(p) == Some(if entries[p].write.None? then BadRecord
                               else UnexpectedWrite(entries[p].write.value.writeType, entries[p].commitTs))
    {}

    // Some key that starts at or after p reports x.
    ghost predicate SomeKeyReports(p: nat, x: KvPair) {
      exists g :: p <= g < |entries| && Boundary(g) && x in Group(g)
    }

    lemma SomeKeyFrom(p: nat, x: KvPair)
      requires p < |entries| && Boundary(p)
      ensures SomeKeyReports(p, x) <==> x in Group(p) || SomeKeyReports(GroupEnd(p), x)
    {
      if SomeKeyReports(p, x) {
        var g :| p <= g < |entries| && Boundary(g) && x in Group(g);
        if p < g { NextBoundary(p, g); }
      }
      if SomeKeyReports(GroupEnd(p), x) {
        var g :| GroupEnd(p) <= g < |entries| && Boundary(g) && x in Group(g);
      }
    }

    // The report of a range holds what its keys report, and nothing else.
    lemma {:induction false} ReportIff(p: nat, x: KvPair)
      requires Boundary(p)
      ensures x in Report(p, |entries|) <==> SomeKeyReports(p, x)
      decreases |entries| - p
    {
      if p < |entries| {
        NextBoundary(p, |entries|);
        ReportIff(GroupEnd(p), x);
        SomeKeyFrom(p, x);
      }
    }

    // A key that the import did not touch reports nothing and faults only if it cannot be read.
    lemma UntouchedIsSilent(p: nat)
      requires p < |entries| && (entries[p].Version? ==> entries[p].commitTs <= minTs)
      ensures Group(p) == [] && Fault(p) == (if entries[p].Version? then None else Some(Io))
    {}
  }

  // ---- key-only mode ----

  function Keys(ps: seq<KvPair>): (r: seq<(Bytes, nat)>)
    ensures |r| == |ps|
  {
    seq(|ps|, i requires 0 <= i < |ps| => (ps[i].key, ps[i].commitTs))
  }

  ghost predicate Twins(v: Scan, k: Scan) {
    !v.keyOnly && k == v.(keyOnly := true)
  }

  lemma {:induction false} SameGroupEnd(v: Scan, k: Scan, p: nat, i: nat)
    requires Twins(v, k) && p < i <= |v.entries|
    requires forall j :: p < j < i ==> v.SameKey(p, j)
    requires forall j :: p < j < i ==> k.SameKey(p, j)
    ensures v.GroupEndFrom(p, i) == k.GroupEndFrom(p, i)
    decreases |v.entries| - i
  {
    if i < |v.entries| && v.SameKey(p, i) {
      SameGroupEnd(v, k, p, i + 1);
    }
  }

  lemma {:induction false} SameScanned(v: Scan, k: Scan, p: nat, j: nat)
    requires Twins(v, k) && j <= |v.entries|
    ensures v.Scanned(p, j) == k.Scanned(p, j)
  {
    if j > p + 1 { SameScanned(v, k, p, j - 1); }
  }

  lemma {:induction false} OlderKeys(v: Scan, k: Scan, p: nat, hi: nat)
    requires Twins(v, k) && hi <= |v.entries|
    ensures Keys(v.Older(p, hi)) == Keys(k.Older(p, hi))
  {
    if hi > p + 1 {
      OlderKeys(v, k, p, hi - 1);
      SameScanned(v, k, p, hi - 1);
      var a, b := v.Older(p, hi - 1), k.Older(p, hi - 1);
      if v.Duplicate(p, hi - 1) {
        KeysAppend(a, v.PairAt(hi - 1));
        KeysAppend(b, k.PairAt(hi - 1));
      } else {
        assert a + [] == a && b + [] == b;
      }
    }
  }

  lemma KeysAppend(a: seq<KvPair>, x: KvPair)
    ensures Keys(a + [x]) == Keys(a) + [(x.key, x.commitTs)]
  {}

  // Key-only mode reports the versions of value mode except the newest of each key.
  lemma KeyOnlyDropsNewest(v: Scan, k: Scan, p: nat)
    requires Twins(v, k) && p < |v.entries|
    ensures v.Group(p) == [] <==> k.Group(p) == []
    ensures v.Group(p) != [] ==> Keys(k.Group(p)) == Keys(v.Group(p))[1..]
  {
    SameGroupEnd(v, k, p, p + 1);
    var e := v.GroupEnd(p);
    OlderKeys(v, k, p, e);
    assert |k.Older(p, e)| == |Keys(k.Older(p, e))|;
    assert |v.Older(p, e)| == |Keys(v.Older(p, e))|;
    if v.Group(p) != [] {
      assert v.Group(p) == [v.PairAt(p)] + v.Older(p, e);
      assert Keys(v.Group(p))[1..] == Keys(v.Older(p, e));
    }
  }
}
