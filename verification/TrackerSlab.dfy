/**
 The global slab of request trackers: shards of bounded capacity, and tokens that name an entry by
 shard, key and a stamp that wraps round. A full shard refuses silently.
 */
module TrackerSlab {

  const SHARD_COUNT: nat := 64
  const SHARD_MAX_CAPACITY: nat := 4096
  const KEY_RANGE: nat := 0x1_0000_0000
  const STAMP_RANGE: nat := 0x400_0000

  datatype Token = Invalid | Token(shard: nat, stamp: nat, key: nat)

  // Whose tracker an entry holds: task `index` of a batch, or some other request.
  datatype Owner = BatchTask(batch: nat, index: nat) | Foreign

  datatype Entry = Entry(stamp: nat, owner: Owner)

  datatype Shard = Shard(entries: map<nat, Entry>, stamp: nat)

  // A vacant key; every vacant key is the answer for some `from`.
  function FreeKey(entries: map<nat, Entry>, from: nat): (k: nat)
    ensures k !in entries && from <= k
    ensures from !in entries ==> k == from
    decreases |set x | x in entries && x >= from|
  {
    if from !in entries then from
    else
      assert (set x | x in entries && x >= from + 1) == (set x | x in entries && x >= from) - {from};
      FreeKey(entries, from + 1)
  }

  predicate Full(shard: Shard) {
    |shard.entries| >= SHARD_MAX_CAPACITY
  }

  function Insert(shard: Shard, id: nat, from: nat, owner: Owner): (r: (Shard, Token)) {
    if Full(shard) then (shard, Invalid)
    else
      var stamp, key := (shard.stamp + 1) % STAMP_RANGE, FreeKey(shard.entries, from);
      (Shard(shard.entries[key := Entry(stamp, owner)], stamp), Token(id, stamp, key))
  }

  // Removing a token whose entry is gone, or was never made, does nothing.
  function Remove(shards: seq<Shard>, t: Token): (r: seq<Shard>)
    ensures |r| == |shards|
  {
    if t.Invalid? || t.shard >= |shards| then shards
    else
      var shard := shards[t.shard];
      if t.key in shard.entries && shard.entries[t.key].stamp == t.stamp
      then shards[t.shard := shard.(entries := shard.entries - {t.key})] else shards
  }

  // A token that is still good removes its entry, and gives the place back.
  lemma RemoveUndoesInsert(shard: Shard, from: nat, owner: Owner)
    requires !Full(shard)
    ensures var (made, t) := Insert(shard, 0, from, owner);
      && t.Token? && t.key !in shard.entries && made.entries == shard.entries[t.key := Entry(t.stamp, owner)]
      && Remove([made], t) == [Shard(shard.entries, t.stamp)]
  {
    var (made, t) := Insert(shard, 0, from, owner);
    assert made.entries - {t.key} == shard.entries;
  }

  // ---- the 64-bit form of a token ----

  const INVALID_BITS: nat := 0xffff_ffff_ffff_ffff

  function Bits(t: Token): (x: nat) {
    if t.Invalid? then INVALID_BITS else (t.shard * STAMP_RANGE + t.stamp) * KEY_RANGE + t.key
  }

  function FromBits(x: nat): (t: Token) {
    if x == INVALID_BITS then Invalid
    else Token(x / KEY_RANGE / STAMP_RANGE, x / KEY_RANGE % STAMP_RANGE, x % KEY_RANGE)
  }

  // The parts of a token come back from its bits, and only one is taken for the invalid one.
  lemma TokenRoundTrip(t: Token)
    requires t.Token? ==> t.shard < SHARD_COUNT && t.stamp < STAMP_RANGE && t.key < KEY_RANGE
    ensures Bits(t) <= INVALID_BITS
    ensures FromBits(Bits(t)) == t <==> t != Token(SHARD_COUNT - 1, STAMP_RANGE - 1, KEY_RANGE - 1)
  {
    if t.Token? {
      assert Bits(t) / KEY_RANGE == t.shard * STAMP_RANGE + t.stamp;
    }
  }

  // ---- stale tokens ----

  datatype Use = Put(from: nat, owner: Owner) | Take(key: nat)

  function UsedOnce(shard: Shard, use: Use): (after: Shard) {
    match use
    case Put(from, owner) => Insert(shard, 0, from, owner).0
    case Take(key) => shard.(entries := shard.entries - {key})
  }

  // What others do with a shard, one insertion or removal after the other.
  function Used(shard: Shard, uses: seq<Use>): (after: Shard) {
    if uses == [] then shard else UsedOnce(Used(shard, uses[..|uses| - 1]), uses[|uses| - 1])
  }

  function Puts(uses: seq<Use>): (n: nat) {
    if uses == [] then 0 else Puts(uses[..|uses| - 1]) + (if uses[|uses| - 1].Put? then 1 else 0)
  }

  // How many insertions lie between a stamp and a later one, as long as they have not gone round.
  function Since(now: nat, stamp: nat): (d: nat)
    requires now < STAMP_RANGE && stamp < STAMP_RANGE
    ensures d < STAMP_RANGE && (d == 0 <==> now == stamp)
  {
    if now >= stamp then now - stamp else now + STAMP_RANGE - stamp
  }

  ghost predicate Ago(now: nat, stamp: nat, least: nat, n: nat) {
    now < STAMP_RANGE && stamp < STAMP_RANGE && least <= Since(now, stamp) <= n
  }

  lemma OneLater(now: nat, stamp: nat, n: nat)
    requires Ago(now, stamp, 0, n) && n + 1 < STAMP_RANGE
    ensures Ago((now + 1) % STAMP_RANGE, stamp, 1, n + 1)
  {}

  // The shard is at most n insertions past the stamp, and so is whatever stands at the key.
  ghost predicate Later(shard: Shard, stamp: nat, key: nat, n: nat) {
    && Ago(shard.stamp, stamp, 0, n)
    && (key in shard.entries ==> Ago(shard.entries[key].stamp, stamp, 1, n))
  }

  lemma LaterOnce(shard: Shard, stamp: nat, key: nat, n: nat, use: Use)
    requires Later(shard, stamp, key, n) && n + 1 < STAMP_RANGE
    ensures Later(UsedOnce(shard, use), stamp, key, n + (if use.Put? then 1 else 0))
  {
    OneLater(shard.stamp, stamp, n);
  }

  lemma {:induction false} StaysLater(shard: Shard, stamp: nat, key: nat, m: nat, uses: seq<Use>)
    requires Later(shard, stamp, key, m) && m + Puts(uses) < STAMP_RANGE
    ensures Later(Used(shard, uses), stamp, key, m + Puts(uses))
  {
    if uses != [] {
      var front := uses[..|uses| - 1];
      StaysLater(shard, stamp, key, m, front);
      if uses[|uses| - 1].Put? { LaterOnce(Used(shard, front), stamp, key, m + Puts(front), uses[|uses| - 1]); }
    }
  }

  // Once its entry is gone a token removes nothing, whatever its place has been used for since,
  // unless 2^26 insertions have gone round.
  lemma StaleTokenRemovesNothing(shard: Shard, from: nat, owner: Owner, during: seq<Use>, since: seq<Use>)
    requires !Full(shard) && Puts(during) + Puts(since) < STAMP_RANGE
    ensures var (made, t) := Insert(shard, 0, from, owner);
      var now := Used(UsedOnce(Used(made, during), Take(t.key)), since);
      Remove([now], t) == [now]
  {
    var (made, t) := Insert(shard, 0, from, owner);
    StaysLater(made, t.stamp, FreeKey(made.entries, 0), 0, during);
    StaysLater(UsedOnce(Used(made, during), Take(t.key)), t.stamp, t.key, Puts(during), since);
  }

  // ---- the object ----

  class ShardedSlab {
    var shards: seq<Shard>

    constructor ()
      ensures shards == seq(SHARD_COUNT, _ => Shard(map[], 0))
    {
      shards := seq(SHARD_COUNT, _ => Shard(map[], 0));
    }

    method InsertInto(id: nat, from: nat, owner: Owner) returns (t: Token)
      requires id < |shards|
      modifies this
      ensures var (after, token) := Insert(old(shards[id]), id, from, owner);
        shards == old(shards)[id := after] && t == token
    {
      var shard := shards[id];
      if |shard.entries| >= SHARD_MAX_CAPACITY {
        t := Invalid;
        assert shards[id := shard] == shards;
      } else {
        var stamp, key := (shard.stamp + 1) % STAMP_RANGE, FreeKey(shard.entries, from);
        shards := shards[id := Shard(shard.entries[key := Entry(stamp, owner)], stamp)];
        t := Token(id, stamp, key);
      }
    }
  }
}
