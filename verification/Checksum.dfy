/** Table checksums: the xor of per-row digests, with rows hashed under the key prefix they used to have. */
module Checksum {
  import opened Sums
  import opened Wrappers

  type Bit = x: int | 0 <= x < 64

  // A 64-bit word, as the set of its one-bits.
  type Word = set<Bit>

  function Xor(a: Word, b: Word): (c: Word) {
    (a - b) + (b - a)
  }

  // A digest that is fed byte by byte and read out as 64 bits.
  datatype Digest<!D> = Digest(empty: D, feed: (D, Byte) -> D, sum: D -> Word) {
    function Write(d: D, bytes: Bytes): (d': D) {
      if bytes == [] then d else Write(feed(d, bytes[0]), bytes[1..])
    }

    // Two pieces fed are their concatenation fed, and one byte fed is that byte fed.
    lemma {:induction false} WriteAppends(d: D, a: Bytes, b: Bytes)
      ensures Write(Write(d, a), b) == Write(d, a + b)
      ensures |b| == 1 ==> Write(d, a + b) == feed(Write(d, a), b[0])
    {
      if a == [] {
        assert a + b == b;
      } else {
        assert (a + b)[1..] == a[1..] + b;
        WriteAppends(feed(d, a[0]), a[1..], b);
      }
    }
  }

  datatype Row = Row(key: Bytes, value: Bytes)

  datatype Sum = Sum(checksum: Word, kvs: nat, bytes: nat)

  datatype Error = UnknownAlgorithm | ScanFailed | WrongPrefix

  function Add(a: Sum, b: Sum): (c: Sum) {
    Sum(Xor(a.checksum, b.checksum), a.kvs + b.kvs, a.bytes + b.bytes)
  }

  const Zero := Sum({}, 0, 0)

  // What one row of a table contributes.
  function RowSum<D>(h: Digest<D>, r: Row): (s: Sum) {
    Sum(h.sum(h.Write(h.empty, r.key + r.value)), 1, |r.key| + |r.value|)
  }

  // What many things contribute together.
  function Fold<X>(f: X -> Sum, xs: seq<X>): (s: Sum) {
    if xs == [] then Zero else Add(Fold(f, xs[..|xs| - 1]), f(xs[|xs| - 1]))
  }

  function TableSum<D>(h: Digest<D>, rows: seq<Row>): (s: Sum) {
    Fold((r: Row) => RowSum(h, r), rows)
  }

  // The row as it was before its table prefix was rewritten from oldPrefix to newPrefix.
  function Original(oldPrefix: Bytes, newPrefix: Bytes, r: Row): (o: Row)
    requires newPrefix <= r.key
  {
    Row(oldPrefix + r.key[|newPrefix|..], r.value)
  }

  function Originals(oldPrefix: Bytes, newPrefix: Bytes, rows: seq<Row>): (os: seq<Row>)
    requires forall i :: 0 <= i < |rows| ==> newPrefix <= rows[i].key
    ensures |os| == |rows|
  {
    seq(|rows|, i requires 0 <= i < |rows| => Original(oldPrefix, newPrefix, rows[i]))
  }

  // ---- laws ----

  lemma AddLaws(a: Sum, b: Sum, c: Sum)
    ensures Add(a, b) == Add(b, a) && Add(a, Zero) == a
    ensures Add(Add(a, b), c) == Add(a, Add(b, c))
  {
    XorLaws(a.checksum, b.checksum, c.checksum);
  }

  lemma XorLaws(a: Word, b: Word, c: Word)
    ensures Xor(a, b) == Xor(b, a) && Xor(a, {}) == a && Xor(Xor(a, b), c) == Xor(a, Xor(b, c))
    ensures Xor(a, a) == {}
    ensures forall bit :: bit in Xor(a, b) <==> (bit in a) != (bit in b)
  {}

  lemma {:induction false} FoldSplits<X>(f: X -> Sum, a: seq<X>, b: seq<X>)
    ensures Fold(f, a + b) == Add(Fold(f, a), Fold(f, b))
  {
    if b == [] {
      assert a + b == a;
      AddLaws(Fold(f, a), Zero, Zero);
    } else {
      var front, last := b[..|b| - 1], b[|b| - 1];
      assert (a + b)[..|a + b| - 1] == a + front;
      FoldSplits(f, a, front);
      AddLaws(Fold(f, a), Fold(f, front), f(last));
    }
  }

  lemma FoldWithout<X>(f: X -> Sum, xs: seq<X>, i: nat)
    requires i < |xs|
    ensures Fold(f, xs) == Add(Fold(f, xs[..i] + xs[i + 1..]), f(xs[i]))
  {
    var a, x, b := xs[..i], f(xs[i]), xs[i + 1..];
    assert xs == xs[..i + 1] + b && xs[..i + 1][..i] == a;
    FoldSplits(f, xs[..i + 1], b);
    FoldSplits(f, a, b);
    AddLaws(Fold(f, a), x, Fold(f, b));
    AddLaws(x, Fold(f, b), Zero);
    AddLaws(Fold(f, a), Fold(f, b), x);
  }

  lemma Without<X>(xs: seq<X>, i: nat)
    requires i < |xs|
    ensures multiset(xs[..i] + xs[i + 1..]) == multiset(xs) - multiset{xs[i]}
  {
    assert xs == xs[..i] + [xs[i]] + xs[i + 1..];
  }

  // Sequences of the same elements stay so without one of them.
  lemma WithoutSame<X>(a: seq<X>, b: seq<X>) returns (i: nat)
    requires a != [] && multiset(a) == multiset(b)
    ensures i < |b| && b[i] == a[|a| - 1]
    ensures multiset(a[..|a| - 1]) == multiset(b[..i] + b[i + 1..])
  {
    assert a[|a| - 1] in multiset(b);
    i :| 0 <= i < |b| && b[i] == a[|a| - 1];
    Without(a, |a| - 1);
    Without(b, i);
    assert a[..|a| - 1] + a[|a|..] == a[..|a| - 1];
  }

  lemma {:induction false} FoldCommutes<X>(f: X -> Sum, a: seq<X>, b: seq<X>)
    requires multiset(a) == multiset(b)
    ensures Fold(f, a) == Fold(f, b)
  {
    if a == [] {
      assert |multiset(b)| == |b|;
    } else {
      var i := WithoutSame(a, b);
      FoldCommutes(f, a[..|a| - 1], b[..i] + b[i + 1..]);
      FoldWithout(f, b, i);
    }
  }

  // checksum_crc64_xor under a rewrite rule hashes the original row.
  lemma RewrittenRow<D>(h: Digest<D>, oldPrefix: Bytes, newPrefix: Bytes, r: Row)
    requires newPrefix <= r.key
    ensures h.sum(h.Write(h.Write(h.Write(h.empty, oldPrefix), r.key[|newPrefix|..]), r.value))
      == RowSum(h, Original(oldPrefix, newPrefix, r)).checksum
    ensures |r.key| + |r.value| + |oldPrefix| - |newPrefix| == RowSum(h, Original(oldPrefix, newPrefix, r)).bytes
  {
    h.WriteAppends(h.empty, oldPrefix, r.key[|newPrefix|..]);
    h.WriteAppends(h.empty, oldPrefix + r.key[|newPrefix|..], r.value);
  }

  // ---- the request ----

  // The first thing that stops the scan, if anything does.
  function Trouble(newPrefix: Bytes, scan: seq<Option<Row>>): (e: Option<Error>) {
    if scan == [] then None
    else if Trouble(newPrefix, scan[..|scan| - 1]).Some? then Trouble(newPrefix, scan[..|scan| - 1])
    else if scan[|scan| - 1].None? then Some(ScanFailed)
    else if !(newPrefix <= scan[|scan| - 1].value.key) then Some(WrongPrefix)
    else None
  }

  function Rows(scan: seq<Option<Row>>): (rows: seq<Row>)
    requires forall i :: 0 <= i < |scan| ==> scan[i].Some?
    ensures |rows| == |scan|
  {
    seq(|scan|, i requires 0 <= i < |scan| => scan[i].value)
  }

  ghost predicate Prefixed(newPrefix: Bytes, scan: seq<Option<Row>>) {
    forall i :: 0 <= i < |scan| ==> scan[i].Some? && newPrefix <= scan[i].value.key
  }

  // The checksum of the rows as they were before the rewrite.
  ghost function ScanSum<D>(h: Digest<D>, oldPrefix: Bytes, newPrefix: Bytes, scan: seq<Option<Row>>): (s: Sum)
    requires Trouble(newPrefix, scan).None?
  {
    TroubleIff(newPrefix, scan);
    TableSum(h, Originals(oldPrefix, newPrefix, Rows(scan)))
  }

  lemma NextRow<D>(h: Digest<D>, oldPrefix: Bytes, newPrefix: Bytes, scan: seq<Option<Row>>, n: nat)
    requires n < |scan| && Trouble(newPrefix, scan[..n]).None? && scan[n].Some? && newPrefix <= scan[n].value.key
    ensures Trouble(newPrefix, scan[..n + 1]).None?
    ensures ScanSum(h, oldPrefix, newPrefix, scan[..n + 1])
      == Add(ScanSum(h, oldPrefix, newPrefix, scan[..n]), RowSum(h, Original(oldPrefix, newPrefix, scan[n].value)))
  {
    assert scan[..n + 1][..n] == scan[..n];
    TroubleIff(newPrefix, scan[..n]);
    TroubleIff(newPrefix, scan[..n + 1]);
    var done, more := Originals(oldPrefix, newPrefix, Rows(scan[..n])), Originals(oldPrefix, newPrefix, Rows(scan[..n + 1]));
    assert more[..n] == done;
  }

  lemma {:induction false} TroubleIff(newPrefix: Bytes, scan: seq<Option<Row>>)
    ensures Trouble(newPrefix, scan).None? <==> Prefixed(newPrefix, scan)
  {
    if scan != [] {
      var front := scan[..|scan| - 1];
      TroubleIff(newPrefix, front);
      assert forall i :: 0 <= i < |front| ==> front[i] == scan[i];
    }
  }

  // What one result of the scanner contributes under a rule.
  function Contribution<D>(h: Digest<D>, oldPrefix: Bytes, newPrefix: Bytes): (f: Option<Row> -> Sum) {
    (o: Option<Row>) =>
      if o.Some? && newPrefix <= o.value.key then RowSum(h, Original(oldPrefix, newPrefix, o.value)) else Zero
  }

  lemma {:induction false} ScanSumIsFold<D>(h: Digest<D>, oldPrefix: Bytes, newPrefix: Bytes, scan: seq<Option<Row>>)
    requires Trouble(newPrefix, scan).None?
    ensures ScanSum(h, oldPrefix, newPrefix, scan) == Fold(Contribution(h, oldPrefix, newPrefix), scan)
  {
    if scan != [] {
      var n := |scan| - 1;
      ScanSumIsFold(h, oldPrefix, newPrefix, scan[..n]);
      assert scan[..n + 1] == scan;
      NextRow(h, oldPrefix, newPrefix, scan, n);
    }
  }

  // A scan that was split goes through exactly if both parts do, and then the result is the xor
  // and the sums of the parts' results, whatever the rule.
  lemma SplitScansCombine<D>(h: Digest<D>, oldPrefix: Bytes, newPrefix: Bytes, a: seq<Option<Row>>, b: seq<Option<Row>>)
    ensures Trouble(newPrefix, a + b).None? <==> Trouble(newPrefix, a).None? && Trouble(newPrefix, b).None?
    ensures Trouble(newPrefix, a + b).None? ==>
      ScanSum(h, oldPrefix, newPrefix, a + b)
      == Add(ScanSum(h, oldPrefix, newPrefix, a), ScanSum(h, oldPrefix, newPrefix, b))
  {
    TroubleSplits(newPrefix, a, b);
    if Trouble(newPrefix, a + b).None? {
      ScanSumIsFold(h, oldPrefix, newPrefix, a);
      ScanSumIsFold(h, oldPrefix, newPrefix, b);
      ScanSumIsFold(h, oldPrefix, newPrefix, a + b);
      FoldSplits(Contribution(h, oldPrefix, newPrefix), a, b);
    }
  }

  lemma TroubleSplits(newPrefix: Bytes, a: seq<Option<Row>>, b: seq<Option<Row>>)
    ensures Trouble(newPrefix, a + b).None? <==> Trouble(newPrefix, a).None? && Trouble(newPrefix, b).None?
  {
    TroubleIff(newPrefix, a);
    TroubleIff(newPrefix, b);
    TroubleIff(newPrefix, a + b);
    if Prefixed(newPrefix, a + b) {
      assert forall i :: 0 <= i < |a| ==> a[i] == (a + b)[i];
      assert forall i :: 0 <= i < |b| ==> b[i] == (a + b)[|a| + i];
    }
  }

  // Scans of the same rows in another order go through alike and give the same result, whatever
  // the rule.
  lemma OrderIsIrrelevant<D>(h: Digest<D>, oldPrefix: Bytes, newPrefix: Bytes, a: seq<Option<Row>>, b: seq<Option<Row>>)
    requires multiset(a) == multiset(b)
    ensures Trouble(newPrefix, a).None? <==> Trouble(newPrefix, b).None?
    ensures Trouble(newPrefix, a).None? ==>
      ScanSum(h, oldPrefix, newPrefix, a) == ScanSum(h, oldPrefix, newPrefix, b)
  {
    if Trouble(newPrefix, a).None? { TroubleOfAny(newPrefix, a, b); }
    if Trouble(newPrefix, b).None? { TroubleOfAny(newPrefix, b, a); }
    if Trouble(newPrefix, a).None? {
      ScanSumIsFold(h, oldPrefix, newPrefix, a);
      ScanSumIsFold(h, oldPrefix, newPrefix, b);
      FoldCommutes(Contribution(h, oldPrefix, newPrefix), a, b);
    }
  }

  lemma TroubleOfAny(newPrefix: Bytes, a: seq<Option<Row>>, b: seq<Option<Row>>)
    requires multiset(a) == multiset(b) && Trouble(newPrefix, a).None?
    ensures Trouble(newPrefix, b).None?
  {
    TroubleIff(newPrefix, a);
    TroubleIff(newPrefix, b);
    forall i | 0 <= i < |b| ensures b[i].Some? && newPrefix <= b[i].value.key {
      assert b[i] in multiset(a);
    }
  }

  // ---- what the result counts ----

  function Hashing<D>(h: Digest<D>, bit: Bit): (w: Row -> nat) {
    (r: Row) => if bit in h.sum(h.Write(h.empty, r.key + r.value)) then 1 else 0
  }

  function Length(): (w: Row -> nat) {
    (r: Row) => |r.key| + |r.value|
  }

  // A bit of the checksum is set exactly if an odd number of rows have it in their digest; the
  // other two are the number of rows and their length.
  lemma {:induction false} TableSumCounts<D>(h: Digest<D>, rows: seq<Row>, bit: Bit)
    ensures bit in TableSum(h, rows).checksum <==> Total(rows, Hashing(h, bit)) % 2 == 1
    ensures TableSum(h, rows).kvs == |rows| && TableSum(h, rows).bytes == Total(rows, Length())
  {
    if rows != [] {
      TableSumCounts(h, rows[..|rows| - 1], bit);
      TableSumAppend(h, rows);
    }
  }

  lemma TableSumAppend<D>(h: Digest<D>, rows: seq<Row>)
    requires rows != []
    ensures TableSum(h, rows) == Add(TableSum(h, rows[..|rows| - 1]), RowSum(h, rows[|rows| - 1]))
  {}

  // The first result that cannot be used decides about the error.
  lemma {:induction false} TroubleIsFirst(newPrefix: Bytes, scan: seq<Option<Row>>, i: nat)
    requires i < |scan|
    requires forall j :: 0 <= j < i ==> scan[j].Some? && newPrefix <= scan[j].value.key
    requires scan[i].Some? ==> !(newPrefix <= scan[i].value.key)
    ensures Trouble(newPrefix, scan) == Some(if scan[i].None? then ScanFailed else WrongPrefix)
  {
    TroubleIff(newPrefix, scan[..i]);
    assert scan[..i + 1][..i] == scan[..i];
    TroubleStays(newPrefix, scan, i + 1);
  }

  // `scan` is what the scanner returns in turn; None is a read error. The checksum of the stored
  // rows under the rule is the checksum, row count and byte count of the original rows.
  method HandleRequest<D>(h: Digest<D>, crc64Xor: bool, rule: Option<(Bytes, Bytes)>, scan: seq<Option<Row>>)
    returns (r: Result<Sum, Error>)
    ensures !crc64Xor ==> r == Err(UnknownAlgorithm)
    ensures crc64Xor ==>
      var (oldPrefix, newPrefix) := if rule.Some? then rule.value else ([], []);
      if Trouble(newPrefix, scan).Some? then r == Err(Trouble(newPrefix, scan).value)
      else
        r == Ok(ScanSum(h, oldPrefix, newPrefix, scan))
  {
    if !crc64Xor {
      return Err(UnknownAlgorithm);
    }
    var checksum: Word, kvs: nat, bytes: nat := {}, 0, 0;
    var (oldPrefix, newPrefix) := if rule.Some? then rule.value else ([], []);
    var prefixDigest := h.Write(h.empty, oldPrefix);
    for n := 0 to |scan|
      invariant Trouble(newPrefix, scan[..n]).None?
      invariant Sum(checksum, kvs, bytes) == ScanSum(h, oldPrefix, newPrefix, scan[..n])
    {
      if scan[n].None? || !(newPrefix <= scan[n].value.key) {
        assert scan[..n + 1][..n] == scan[..n];
        TroubleStays(newPrefix, scan, n + 1);
        return Err(if scan[n].None? then ScanFailed else WrongPrefix);
      }
      var row := scan[n].value;
      checksum := Xor(checksum, h.sum(h.Write(h.Write(prefixDigest, row.key[|newPrefix|..]), row.value)));
      kvs := kvs + 1;
      bytes := bytes + (|row.key| + |row.value| + |oldPrefix| - |newPrefix|);
      RewrittenRow(h, oldPrefix, newPrefix, row);
      NextRow(h, oldPrefix, newPrefix, scan, n);
    }
    assert scan[..|scan|] == scan;
    r := Ok(Sum(checksum, kvs, bytes));
  }

  lemma {:induction false} TroubleStays(newPrefix: Bytes, scan: seq<Option<Row>>, n: nat)
    requires n <= |scan| && Trouble(newPrefix, scan[..n]).Some?
    ensures Trouble(newPrefix, scan) == Trouble(newPrefix, scan[..n])
    decreases |scan|
  {
    if n == |scan| {
      assert scan[..n] == scan;
    } else {
      assert scan[..|scan| - 1][..n] == scan[..n];
      TroubleStays(newPrefix, scan[..|scan| - 1], n);
    }
  }

  // A rule and its effect cancel: rows that were moved from oldPrefix to newPrefix have, under the
  // rule, the checksum, row count and byte count that the table had before the move without one.
  lemma RuleUndoesRewrite<D>(h: Digest<D>, oldPrefix: Bytes, newPrefix: Bytes, table: seq<Row>, moved: seq<Row>)
    requires |moved| == |table|
    requires forall i :: 0 <= i < |table| ==> oldPrefix <= table[i].key
    requires forall i :: 0 <= i < |table| ==> moved[i] == Row(newPrefix + table[i].key[|oldPrefix|..], table[i].value)
    ensures TableSum(h, Originals(oldPrefix, newPrefix, moved)) == TableSum(h, Originals([], [], table))
    ensures Originals(oldPrefix, newPrefix, moved) == table
  {
    forall i | 0 <= i < |table|
      ensures Original(oldPrefix, newPrefix, moved[i]) == table[i] && Original([], [], table[i]) == table[i]
    {
      assert moved[i].key[|newPrefix|..] == table[i].key[|oldPrefix|..];
      assert oldPrefix + table[i].key[|oldPrefix|..] == table[i].key;
      assert [] + table[i].key[0..] == table[i].key;
    }
    assert Originals(oldPrefix, newPrefix, moved) == table;
    assert Originals([], [], table) == table;
  }
}
