/**
 The 64-way sharded cache.  Shard choice and first-table bucket come from the same hash, which
 limits what one shard can ever hold; the limit is proved for every valid table.
 */
module ShardedCuckooTable {
  import opened Options
  import opened Maps
  import opened CuckooModel
  import Arithmetic
  import Cuckoo = CuckooTable
  import Theory = CuckooTheorems

  const NUM_SHARDS: nat := 64

  function ShardIndex(H: Hashes, key: string): (s: nat)
    ensures s < NUM_SHARDS
  {
    H.h1(key) % NUM_SHARDS
  }

  /** The source masks the hash with 63; that is the same shard. */
  lemma ShardIndexIsMask(H: Hashes, key: string)
    ensures Arithmetic.BitAnd(H.h1(key), NUM_SHARDS - 1) == ShardIndex(H, key)
  {
    assert Arithmetic.Pow(2, 6) == 2 * Arithmetic.Pow(2, 5) == 4 * Arithmetic.Pow(2, 4) == 8 * Arithmetic.Pow(2, 3) == 64;
    Arithmetic.MaskIsRemainder(H.h1(key), 6);
  }

  function BucketsPerShard(total: nat): nat {
    var buckets := total / NUM_SHARDS / 8;
    if buckets < 64 then 64 else buckets
  }

  // ---------------------------------------------------------------------------
  // How much one shard can hold

  predicate Routed(T: Table, H: Hashes, s: nat)
    requires Shape(T)
  {
    forall p :: 0 <= p < |T.t1| && Full(T.t1[p]) ==> ShardIndex(H, T.storage[T.t1[p].index].key) == s
  }

  lemma ModOfMultiple(h: nat, q: nat)
    requires q >= 1
    ensures (h % (64 * q)) % 64 == h % 64
  {
    var size := 64 * q;
    var a, r := h / size, h % size;
    assert h == a * size + r;
    assert a * size == 64 * (a * q);
  }

  lemma {:induction false} InjectiveBound(m: map<nat, nat>, n: nat)
    requires forall i, j :: i in m && j in m && i != j ==> m[i] != m[j]
    requires forall i :: i in m ==> m[i] < n
    ensures |m.Keys| <= n
    decreases n
  {
    if n == 0 {
    } else if i :| i in m && m[i] == n - 1 {
      var rest := m - {i};
      InjectiveBound(rest, n - 1);
    } else {
      InjectiveBound(m, n - 1);
    }
  }

  /** A full slot of the first table lies in a bucket congruent to its shard. */
  lemma FirstTableResidue(T: Table, H: Hashes, s: nat, p: nat)
    requires Theory.Valid(T, H) && Routed(T, H, s) && T.size % 64 == 0
    requires p < |T.t1| && Full(T.t1[p])
    ensures (p / 8) % 64 == s
  {
    var key := T.storage[T.t1[p].index].key;
    ModOfMultiple(H.h1(key), T.size / 64);
  }

  ghost function PosOf(t: seq<Slot>, i: nat): (p: nat)
    requires i in Theory.Indices(t)
    ensures p < |t| && Full(t[p]) && t[p].index == i
  {
    var p :| 0 <= p < |t| && Full(t[p]) && t[p].index == i;
    p
  }

  /** Squeezes the buckets of one residue class together. */
  function Squeeze(p: nat): nat {
    8 * (p / 8 / 64) + p % 8
  }

  lemma SqueezeInjective(p: nat, q: nat)
    requires p != q && (p / 8) % 64 == (q / 8) % 64
    ensures Squeeze(p) != Squeeze(q)
  {
  }

  lemma SqueezeBound(p: nat, size: nat)
    requires p < 8 * size && size % 64 == 0
    ensures Squeeze(p) < 8 * (size / 64)
  {
  }

  lemma FirstTableBound(T: Table, H: Hashes, s: nat)
    requires Theory.Valid(T, H) && Routed(T, H, s) && T.size % 64 == 0
    ensures |Theory.Indices(T.t1)| <= 8 * (T.size / 64)
  {
    hide Squeeze, Theory.Accounted, InRange, Routed;
    var I := Theory.Indices(T.t1);
    var m: map<nat, nat> := map i | i in I :: Squeeze(PosOf(T.t1, i));
    forall i | i in m ensures m[i] < 8 * (T.size / 64) {
      SqueezeBound(PosOf(T.t1, i), T.size);
    }
    forall i, j | i in m && j in m && i != j ensures m[i] != m[j] {
      FirstTableResidue(T, H, s, PosOf(T.t1, i));
      FirstTableResidue(T, H, s, PosOf(T.t1, j));
      SqueezeInjective(PosOf(T.t1, i), PosOf(T.t1, j));
    }
    InjectiveBound(m, 8 * (T.size / 64));
    assert m.Keys == I;
  }

  lemma SecondTableBound(T: Table, H: Hashes)
    requires Theory.Valid(T, H)
    ensures |Theory.Indices(T.t2)| <= 8 * T.size
  {
    var I := Theory.Indices(T.t2);
    var m: map<nat, nat> := map i | i in I :: PosOf(T.t2, i);
    InjectiveBound(m, 8 * T.size);
    assert m.Keys == I;
  }

  /** A shard with a bucket count that is a multiple of 64 uses a 64th of its first table. */
  lemma ShardCapacity(T: Table, H: Hashes, s: nat)
    requires Theory.Valid(T, H) && Routed(T, H, s) && T.size % 64 == 0
    ensures forall p :: 0 <= p < |T.t1| && Full(T.t1[p]) ==> (p / 8) % 64 == s
    ensures |Theory.Slotted(T)| <= 8 * (T.size / 64) + 8 * T.size
  {
    forall p | 0 <= p < |T.t1| && Full(T.t1[p]) ensures (p / 8) % 64 == s {
      FirstTableResidue(T, H, s, p);
    }
    FirstTableBound(T, H, s);
    SecondTableBound(T, H);
  }

  function Below(n: nat): (r: set<nat>)
    ensures |r| == n && forall i: nat :: i in r <==> i < n
  {
    if n == 0 then {} else Below(n - 1) + {n - 1}
  }

  /**
   The engine opens its cache for 256 * 1024 items: 512 buckets and storage for 7372 entries per
   shard.  At most 4160 keys can be live in a shard, so CLOCK only ever runs after displacement
   failures have orphaned at least 3212 entries.
   */
  lemma EngineEvictsOnlyAfterOrphans(T: Table, H: Hashes, s: nat)
    requires Theory.Valid(T, H) && Routed(T, H, s)
    requires T.size == BucketsPerShard(256 * 1024)
    requires |T.storage| == |New(T.size, 2 * (256 * 1024 / NUM_SHARDS), Entry("", [], false)).storage|
    ensures T.size == 512 && |T.storage| == 7372
    ensures |Theory.Slotted(T)| <= 4160
    ensures T.free == [] && T.used == |T.storage| ==> |Theory.Orphans(T)| >= 3212
  {
    ShardCapacity(T, H, s);
    if T.free == [] && T.used == |T.storage| {
      var all := Below(T.used);
      assert Theory.FreeSet(T) == {};
      assert all <= Theory.Slotted(T) + Theory.Orphans(T);
      SubsetSize(all, Theory.Slotted(T) + Theory.Orphans(T));
    }
  }

  lemma SubsetSize<T>(a: set<T>, b: set<T>)
    requires a <= b
    ensures |a| <= |b|
  {
    assert b == a + (b - a);
  }

  // ---------------------------------------------------------------------------
  // The sharded cache

  /** Every shard is valid and holds only keys that route to it. */
  ghost predicate ShardOk(T: Table, H: Hashes, i: int) {
    && Theory.Valid(T, H)
    && forall k :: k in Theory.View(T, H) ==> ShardIndex(H, k) == i
  }

  ghost predicate ShardsOk(shards: seq<Table>, H: Hashes) {
    && |shards| == NUM_SHARDS
    && forall i :: 0 <= i < |shards| ==> ShardOk(shards[i], H, i)
  }

  ghost function Keys(shards: seq<Table>, H: Hashes): set<string>
    requires ShardsOk(shards, H)
  {
    set i, k | 0 <= i < |shards| && k in Theory.View(shards[i], H) :: k
  }

  /** The one map the shards together denote. */
  ghost function View(shards: seq<Table>, H: Hashes): (m: map<string, Bytes>)
    requires ShardsOk(shards, H)
    ensures forall i, k :: 0 <= i < |shards| && k in Theory.View(shards[i], H)
              ==> k in m && m[k] == Theory.View(shards[i], H)[k]
    ensures forall k :: k in m ==> k in Theory.View(shards[ShardIndex(H, k)], H)
  {
    map k | k in Keys(shards, H) :: Theory.View(shards[ShardIndex(H, k)], H)[k]
  }

  /** The shards' key sets are pairwise disjoint. */
  lemma ShardsDisjoint(shards: seq<Table>, H: Hashes, i: nat, j: nat)
    requires ShardsOk(shards, H) && i < |shards| && j < |shards| && i != j
    ensures Theory.View(shards[i], H).Keys !! Theory.View(shards[j], H).Keys
  {
  }

  /** A key's binding is the one in the shard it routes to. */
  lemma GetRoutes(shards: seq<Table>, H: Hashes, k: string)
    requires ShardsOk(shards, H)
    ensures Get(View(shards, H), k) == Get(Theory.View(shards[ShardIndex(H, k)], H), k)
  {
  }

  lemma EmptyShards(shards: seq<Table>, H: Hashes)
    requires |shards| == NUM_SHARDS
    requires forall i :: 0 <= i < |shards| ==> ShardOk(shards[i], H, i) && Theory.View(shards[i], H) == map[]
    ensures ShardsOk(shards, H) && View(shards, H) == map[]
  {
    hide Theory.Valid, Theory.View;
  }

  /** Replacing one shard by one whose map changed only at keys that route to it. */
  lemma ReplaceShard(shards: seq<Table>, H: Hashes, i: nat, D: Table)
    requires ShardsOk(shards, H) && i < |shards| && ShardOk(D, H, i)
    ensures ShardsOk(shards[i := D], H)
    ensures forall k :: Get(View(shards[i := D], H), k) ==
                        if ShardIndex(H, k) == i then Get(Theory.View(D, H), k) else Get(View(shards, H), k)
  {
    hide Theory.View, View, Theory.Valid;
    var after := shards[i := D];
    forall k ensures Get(View(after, H), k) ==
                     if ShardIndex(H, k) == i then Get(Theory.View(D, H), k) else Get(View(shards, H), k)
    {
      GetRoutes(after, H, k);
    }
  }

  /** Routing an insert changes the one map as the shard's insert changes its own. */
  lemma InsertShard(shards: seq<Table>, H: Hashes, key: string, payload: Bytes) returns (evicted: set<string>, lost: set<string>)
    requires ShardsOk(shards, H)
    ensures var i := ShardIndex(H, key);
            Shape(shards[i]) &&
            var (D, ok) := Insert(shards[i], H, key, payload);
            var after := shards[i := D];
            && ShardsOk(after, H)
            && Theory.MapInsert(View(shards, H), View(after, H), key, payload, ok, evicted, lost)
            && (evicted != {} ==> Theory.ClockChose(shards[i], evicted))
  {
    hide Theory.View, Theory.Accounted, Insert, View, Theory.ClockChose;
    var i := ShardIndex(H, key);
    assert ShardOk(shards[i], H, i);
    var (D, ok) := Insert(shards[i], H, key, payload);
    evicted, lost := Theory.InsertView(shards[i], H, key, payload);
    ReplaceShard(shards, H, i, D);
    var m, n := View(shards, H), View(shards[i := D], H);
    forall k ensures Get(m, k) == Get(Theory.View(shards[ShardIndex(H, k)], H), k) { GetRoutes(shards, H, k); }
    LiftInsert(m, n, Theory.View(shards[i], H), Theory.View(D, H), H, i, key, payload, ok, evicted, lost);
  }

  /** An insert into the part of a map that one shard holds is an insert into the whole. */
  lemma LiftInsert(
    m: map<string, Bytes>, n: map<string, Bytes>, part: map<string, Bytes>, part': map<string, Bytes>,
    H: Hashes, i: nat, key: string, payload: Bytes, ok: bool, evicted: set<string>, lost: set<string>)
    requires Theory.MapInsert(part, part', key, payload, ok, evicted, lost) && ShardIndex(H, key) == i
    requires forall k :: k in evicted || k in lost ==> ShardIndex(H, k) == i
    requires forall k :: ShardIndex(H, k) == i ==> Get(m, k) == Get(part, k)
    requires forall k :: Get(n, k) == if ShardIndex(H, k) == i then Get(part', k) else Get(m, k)
    ensures Theory.MapInsert(m, n, key, payload, ok, evicted, lost)
  {
    var full, goal := (part - evicted)[key := payload], (m - evicted)[key := payload];
    forall k ensures Get(n, k) == Get(goal - lost, k) {
      assert ShardIndex(H, k) == i ==> Get(m, k) == Get(part, k);
    }
    SameBindings(n, goal - lost);
    assert Get(m, key) == Get(part, key);
    if lost != {} {
      var k :| k in full && lost == {k};
      assert k in goal by { assert Get(m, k) == Get(part, k); }
    }
    if evicted != {} {
      var k :| k in part && evicted == {k};
      assert k in m by { assert Get(m, k) == Get(part, k); }
    }
  }

  /** Room for `n` entries where a key is at home. */
  ghost predicate RoomIn(shards: seq<Table>, H: Hashes, key: string, n: nat)
    requires ShardsOk(shards, H)
  {
    ShardOk(shards[ShardIndex(H, key)], H, ShardIndex(H, key)) && Theory.RoomFor(shards[ShardIndex(H, key)], H, key, n)
  }

  /** From `shards` to `after` no key lost room for more than `k` entries. */
  ghost predicate ShardsUseUp(shards: seq<Table>, after: seq<Table>, H: Hashes, k: nat) {
    && ShardsOk(shards, H) && ShardsOk(after, H)
    && forall key: string, n: nat, m: nat :: RoomIn(shards, H, key, m) && m >= n + k ==> RoomIn(after, H, key, n)
  }

  lemma ReplaceRoom(shards: seq<Table>, H: Hashes, i: nat, D: Table, k: nat)
    requires ShardsOk(shards, H) && i < |shards| && ShardsOk(shards[i := D], H) && Theory.UsesUp(shards[i], D, H, k)
    ensures ShardsUseUp(shards, shards[i := D], H, k)
  {
    hide Theory.View, Theory.Accounted, Theory.RoomFor, ShardsOk;
    var after := shards[i := D];
    forall key: string, n: nat, m: nat | RoomIn(shards, H, key, m) && m >= n + k ensures RoomIn(after, H, key, n) {
      ShardIn(after, H, ShardIndex(H, key));
      if ShardIndex(H, key) != i { Theory.LessRoom(shards[ShardIndex(H, key)], H, key, m, n); }
    }
  }

  lemma ShardIn(shards: seq<Table>, H: Hashes, i: nat)
    requires ShardsOk(shards, H) && i < NUM_SHARDS
    ensures |shards| == NUM_SHARDS && ShardOk(shards[i], H, i)
  {
  }

  /** A binding set in one shard is set in the one map. */
  lemma SetInShard(shards: seq<Table>, H: Hashes, D: Table, key: string, payload: Bytes)
    requires ShardsOk(shards, H) && ShardOk(D, H, ShardIndex(H, key))
    requires ShardOk(shards[ShardIndex(H, key)], H, ShardIndex(H, key))
    requires Theory.View(D, H) == Theory.View(shards[ShardIndex(H, key)], H)[key := payload]
    ensures var after := shards[ShardIndex(H, key) := D];
            ShardsOk(after, H) && View(after, H) == View(shards, H)[key := payload]
  {
    hide Theory.View, Theory.Valid, View, ShardsOk;
    ShardIn(shards, H, 0);
    var i := ShardIndex(H, key);
    ReplaceShard(shards, H, i, D);
    var m, n := View(shards[i := D], H), View(shards, H)[key := payload];
    forall k ensures Get(m, k) == Get(n, k) {
      GetRoutes(shards, H, k);
    }
    SameBindings(m, n);
  }

  /** An insert that updates a live key or finds room drops nothing and uses up room for one entry at most. */
  lemma InsertRoom(shards: seq<Table>, H: Hashes, key: string, payload: Bytes)
    requires ShardsOk(shards, H) && (key in View(shards, H) || RoomIn(shards, H, key, 1))
    ensures var i := ShardIndex(H, key);
            |shards| == NUM_SHARDS && Shape(shards[i]) &&
            var (D, ok) := Insert(shards[i], H, key, payload);
            var after := shards[i := D];
            && ok && ShardsOk(after, H) && View(after, H) == View(shards, H)[key := payload]
            && ShardsUseUp(shards, after, H, 1)
  {
    hide Theory.View, Theory.Accounted, Insert, View, Theory.RoomFor, ShardsUseUp, Theory.UsesUp, ShardsOk;
    var i := ShardIndex(H, key);
    ShardIn(shards, H, i);
    GetRoutes(shards, H, key);
    Theory.RoomKeepsAll(shards[i], H, key, payload);
    var (D, ok) := Insert(shards[i], H, key, payload);
    assert ShardOk(D, H, i);
    SetInShard(shards, H, D, key, payload);
    ReplaceRoom(shards, H, i, D, 1);
  }

  /** Each of the keys is in the map or has room at home for `n` more entries. */
  ghost predicate FitsIn(shards: seq<Table>, H: Hashes, keys: seq<string>, n: nat)
    requires ShardsOk(shards, H)
  {
    forall k :: k in keys ==> k in View(shards, H) || RoomIn(shards, H, k, n)
  }

  lemma InsertFits(shards: seq<Table>, H: Hashes, key: string, payload: Bytes, keys: seq<string>, n: nat)
    requires ShardsOk(shards, H) && key in keys && FitsIn(shards, H, keys, n + 1)
    ensures var i := ShardIndex(H, key);
            |shards| == NUM_SHARDS && Shape(shards[i]) &&
            var (D, ok) := Insert(shards[i], H, key, payload);
            var after := shards[i := D];
            ok && ShardsOk(after, H) && View(after, H) == View(shards, H)[key := payload] && FitsIn(after, H, keys, n)
  {
    hide View, Insert, ShardsOk, Shape, RoomIn;
    if key !in View(shards, H) { RoomForOne(shards, H, key, n + 1); }
    InsertRoom(shards, H, key, payload);
  }

  /**
   An insert of `key` dropped `dropped`: nothing, if the key was there or had room; and then it used
   up room for one entry at most.
   */
  ghost predicate Spared(before: seq<Table>, after: seq<Table>, H: Hashes, key: string, dropped: set<string>) {
    && ShardsOk(before, H) && ShardsOk(after, H)
    && (FitsIn(before, H, [key], 1) ==> dropped == {})
    && forall keys: seq<string>, n: nat, m: nat :: key in keys && FitsIn(before, H, keys, m) && m == n + 1 ==>
         FitsIn(after, H, keys, n)
  }

  /** The tables after an insert. */
  ghost predicate Inserted(
    shards: seq<Table>, after: seq<Table>, H: Hashes, key: string, payload: Bytes, evicted: set<string>, lost: set<string>)
  {
    var i := ShardIndex(H, key);
    && ShardsOk(shards, H) && ShardsOk(after, H) && i < |shards| && Shape(shards[i])
    && var (D, ok) := Insert(shards[i], H, key, payload);
       after == shards[i := D] && Theory.MapInsert(View(shards, H), View(after, H), key, payload, ok, evicted, lost)
  }

  lemma InsertSpares(
    shards: seq<Table>, after: seq<Table>, H: Hashes, key: string, payload: Bytes, evicted: set<string>, lost: set<string>)
    requires Inserted(shards, after, H, key, payload, evicted, lost)
    ensures Spared(shards, after, H, key, evicted + lost)
  {
    hide View, Insert, ShardsOk, Shape, FitsIn, Theory.MapInsert, ShardIndex;
    forall keys: seq<string>, n: nat, m: nat | key in keys && FitsIn(shards, H, keys, m) && m == n + 1
      ensures FitsIn(after, H, keys, n)
    {
      InsertFits(shards, H, key, payload, keys, n);
    }
    if FitsIn(shards, H, [key], 1) {
      InsertFits(shards, H, key, payload, [key], 0);
      NothingDropped(View(shards, H), View(after, H), key, payload, evicted, lost);
    }
  }

  lemma SparedFits(before: seq<Table>, after: seq<Table>, H: Hashes, key: string, dropped: set<string>, keys: seq<string>, n: nat)
    requires Spared(before, after, H, key, dropped) && key in keys && FitsIn(before, H, keys, n + 1)
    ensures dropped == {} && FitsIn(after, H, keys, n)
  {
    hide ShardsOk, FitsIn;
    FitsAlone(before, H, key, keys, n);
  }

  /** A table at rest, or only looked at, spares everything. */
  lemma RestSpares(before: seq<Table>, after: seq<Table>, H: Hashes, key: string)
    requires ShardsUseUp(before, after, H, 0) && View(after, H) == View(before, H)
    ensures Spared(before, after, H, key, {})
  {
    hide View, ShardsOk, RoomIn;
    forall keys: seq<string>, n: nat, m: nat | key in keys && FitsIn(before, H, keys, m) && m == n + 1
      ensures FitsIn(after, H, keys, n)
    {
    }
  }

  /** A look before an insert changes nothing about what the insert spares. */
  lemma LookThenInsert(before: seq<Table>, mid: seq<Table>, after: seq<Table>, H: Hashes, key: string, dropped: set<string>)
    requires ShardsUseUp(before, mid, H, 0) && View(mid, H) == View(before, H) && Spared(mid, after, H, key, dropped)
    ensures Spared(before, after, H, key, dropped)
  {
    hide View, ShardsOk, FitsIn, RoomIn;
    forall keys: seq<string>, n: nat | FitsIn(before, H, keys, n) ensures FitsIn(mid, H, keys, n) {
      StillFits(before, mid, H, keys, n);
    }
  }

  lemma NoneUsedUp(shards: seq<Table>, H: Hashes)
    requires ShardsOk(shards, H)
    ensures ShardsUseUp(shards, shards, H, 0)
  {
    hide ShardsOk, Theory.RoomFor;
    forall key: string, n: nat, m: nat | RoomIn(shards, H, key, m) && m >= n ensures RoomIn(shards, H, key, n) {
      ShardIn(shards, H, ShardIndex(H, key));
      Theory.LessRoom(shards[ShardIndex(H, key)], H, key, m, n);
    }
  }

  /** The tables after a removal: one key less at most, and no less room. */
  ghost predicate Removed(before: seq<Table>, after: seq<Table>, H: Hashes, key: string) {
    ShardsUseUp(before, after, H, 0) && View(after, H) == View(before, H) - {key}
  }

  lemma RemovedFits(before: seq<Table>, after: seq<Table>, H: Hashes, key: string, keys: seq<string>, n: nat)
    requires Removed(before, after, H, key) && key !in keys && FitsIn(before, H, keys, n)
    ensures FitsIn(after, H, keys, n)
  {
    hide View, ShardsUseUp, FitsIn, ShardsOk;
    StillFits(before, after, H, keys, n);
  }

  lemma FitsAlone(shards: seq<Table>, H: Hashes, key: string, keys: seq<string>, n: nat)
    requires ShardsOk(shards, H) && key in keys && FitsIn(shards, H, keys, n + 1)
    ensures FitsIn(shards, H, [key], 1)
  {
    hide View, ShardsOk, RoomIn;
    if key !in View(shards, H) { RoomForOne(shards, H, key, n + 1); }
  }

  lemma RoomForOne(shards: seq<Table>, H: Hashes, key: string, n: nat)
    requires ShardsOk(shards, H) && RoomIn(shards, H, key, n) && n >= 1
    ensures RoomIn(shards, H, key, 1)
  {
    hide Theory.RoomFor, ShardsOk;
    ShardIn(shards, H, ShardIndex(H, key));
    Theory.LessRoom(shards[ShardIndex(H, key)], H, key, n, 1);
  }

  /** Where no room is used up and the keys stay, what fitted still fits. */
  lemma StillFits(shards: seq<Table>, after: seq<Table>, H: Hashes, keys: seq<string>, n: nat)
    requires ShardsUseUp(shards, after, H, 0) && FitsIn(shards, H, keys, n)
    requires forall k :: k in keys && k in View(shards, H) ==> k in View(after, H)
    ensures FitsIn(after, H, keys, n)
  {
    hide View, ShardsOk, RoomIn;
  }

  lemma NewArena(total: nat)
    requires total / NUM_SHARDS >= 8
    ensures |New(BucketsPerShard(total), 2 * (total / NUM_SHARDS), Entry("", [], false)).storage| >= 16
  {
    var size := BucketsPerShard(total);
    assert size * 16 * 90 / 100 >= 64 * 16 * 90 / 100;
  }

  /** A new cache has room for sixteen entries wherever a key is at home. */
  lemma NewFits(shards: seq<Table>, H: Hashes, total: nat, keys: seq<string>, n: nat)
    requires ShardsOk(shards, H) && total / NUM_SHARDS >= 8 && n <= 16
    requires forall i :: 0 <= i < |shards| ==>
               shards[i] == New(BucketsPerShard(total), 2 * (total / NUM_SHARDS), Entry("", [], false))
    ensures FitsIn(shards, H, keys, n)
  {
    hide View, Theory.View, New;
    forall k ensures RoomIn(shards, H, k, n) {
      var i := ShardIndex(H, k);
      assert ShardOk(shards[i], H, i);
      NewArena(total);
      Theory.NewRoom(BucketsPerShard(total), 2 * (total / NUM_SHARDS), Entry("", [], false), H, k, n);
    }
  }

  lemma NothingDropped(
    before: map<string, Bytes>, after: map<string, Bytes>, key: string, payload: Bytes, evicted: set<string>, lost: set<string>)
    requires Theory.MapInsert(before, after, key, payload, true, evicted, lost) && after == before[key := payload]
    ensures evicted == {} && lost == {}
  {
    EvictedGone(before, after, key, payload, evicted, lost);
  }

  lemma EvictedGone(
    before: map<string, Bytes>, after: map<string, Bytes>, key: string, payload: Bytes, evicted: set<string>, lost: set<string>)
    requires Theory.MapInsert(before, after, key, payload, true, evicted, lost)
    ensures forall k :: k in evicted ==> k in before && k !in after
  {
  }

  lemma RemoveShard(shards: seq<Table>, H: Hashes, key: string)
    requires ShardsOk(shards, H)
    ensures var i := ShardIndex(H, key);
            Shape(shards[i]) &&
            var (D, ok) := Remove(shards[i], H, key);
            var after := shards[i := D];
            && ShardsOk(after, H)
            && View(after, H) == View(shards, H) - {key}
            && (ok <==> key in View(shards, H))
            && ShardsUseUp(shards, after, H, 0)
  {
    hide Theory.View, Theory.Accounted, Remove, View, Theory.RoomFor, RoomIn, ShardsUseUp, Theory.UsesUp;
    var i := ShardIndex(H, key);
    assert ShardOk(shards[i], H, i);
    var (D, ok) := Remove(shards[i], H, key);
    Theory.RemoveView(shards[i], H, key);
    Theory.RemoveRoom(shards[i], H, key);
    ReplaceShard(shards, H, i, D);
    ReplaceRoom(shards, H, i, D, 0);
    GetRoutes(shards, H, key);
    var m, n := View(shards[i := D], H), View(shards, H) - {key};
    forall k ensures Get(m, k) == Get(n, k) {
      GetRoutes(shards, H, k);
    }
    SameBindings(m, n);
  }

  lemma SameBindings(m: map<string, Bytes>, n: map<string, Bytes>)
    requires forall k :: Get(m, k) == Get(n, k)
    ensures m == n
  {
    assert forall k :: k in m ==> Get(m, k) == Get(n, k);
    assert forall k :: k in n ==> Get(m, k) == Get(n, k);
  }

  lemma LookupShard(shards: seq<Table>, H: Hashes, key: string)
    requires ShardsOk(shards, H)
    ensures var i := ShardIndex(H, key);
            Shape(shards[i]) &&
            var (D, r) := Lookup(shards[i], H, key);
            var after := shards[i := D];
            && ShardsOk(after, H)
            && View(after, H) == View(shards, H)
            && r == Get(View(shards, H), key)
            && ShardsUseUp(shards, after, H, 0)
  {
    hide Theory.View, Theory.Accounted, Lookup, View, Theory.RoomFor, RoomIn, ShardsUseUp, Theory.UsesUp;
    var i := ShardIndex(H, key);
    assert ShardOk(shards[i], H, i);
    var (D, r) := Lookup(shards[i], H, key);
    Theory.LookupView(shards[i], H, key);
    Theory.LookupRoom(shards[i], H, key);
    ReplaceShard(shards, H, i, D);
    ReplaceRoom(shards, H, i, D, 0);
    GetRoutes(shards, H, key);
    forall k ensures Get(View(shards[i := D], H), k) == Get(View(shards, H), k) {
      GetRoutes(shards, H, k);
    }
    SameBindings(View(shards[i := D], H), View(shards, H));
  }

  // ---------------------------------------------------------------------------
  // How much all shards can hold

  lemma {:induction false} ImageSize(S: set<nat>, storage: seq<Entry>)
    requires forall i :: i in S ==> i < |storage|
    ensures |Theory.KeysOf(S, storage)| <= |S|
    decreases S
  {
    if S != {} {
      var i :| i in S;
      var rest := S - {i};
      ImageSize(rest, storage);
      assert Theory.KeysOf(S, storage) == Theory.KeysOf(rest, storage) + {storage[i].key};
    }
  }

  /** The keys of the first `n` shards. */
  ghost function KeysBelow(shards: seq<Table>, H: Hashes, n: nat): set<string>
    requires ShardsOk(shards, H) && n <= |shards|
  {
    if n == 0 then {} else KeysBelow(shards, H, n - 1) + Theory.View(shards[n - 1], H).Keys
  }

  lemma {:induction false} KeysBelowSize(shards: seq<Table>, H: Hashes, n: nat)
    requires ShardsOk(shards, H) && n <= |shards|
    requires forall i :: 0 <= i < |shards| ==> |Theory.View(shards[i], H).Keys| <= 4160
    ensures |KeysBelow(shards, H, n)| <= 4160 * n
    ensures forall i, k :: 0 <= i < n && k in Theory.View(shards[i], H) ==> k in KeysBelow(shards, H, n)
    decreases n
  {
    hide Theory.View, Theory.Valid;
    if n > 0 {
      KeysBelowSize(shards, H, n - 1);
    }
  }

  /** The engine's cache never holds more than 266240 keys, although its shards have storage for 471808. */
  lemma EngineCacheBound(shards: seq<Table>, H: Hashes)
    requires ShardsOk(shards, H)
    requires forall i :: 0 <= i < |shards| ==>
               && shards[i].size == BucketsPerShard(256 * 1024)
               && |shards[i].storage| == |New(shards[i].size, 2 * (256 * 1024 / NUM_SHARDS), Entry("", [], false)).storage|
    ensures |View(shards, H).Keys| <= 266240
  {
    hide Theory.Accounted, View, New;
    forall i | 0 <= i < |shards| ensures |Theory.View(shards[i], H).Keys| <= 4160 {
      ShardHolds(shards[i], H, i);
    }
    KeysBelowSize(shards, H, NUM_SHARDS);
    forall k | k in View(shards, H) ensures k in KeysBelow(shards, H, NUM_SHARDS) {}
    SubsetSize(View(shards, H).Keys, KeysBelow(shards, H, NUM_SHARDS));
  }

  lemma ShardHolds(T: Table, H: Hashes, i: nat)
    requires ShardOk(T, H, i) && T.size == BucketsPerShard(256 * 1024)
    requires |T.storage| == |New(T.size, 2 * (256 * 1024 / NUM_SHARDS), Entry("", [], false)).storage|
    ensures |Theory.View(T, H).Keys| <= 4160
  {
    hide New, Theory.Orphans;
    EngineEvictsOnlyAfterOrphans(T, H, i);
    ImageSize(Theory.Slotted(T), T.storage);
  }

  /** `es` lists, once each, the entries of `m` whose keys route below `n`. */
  ghost predicate Dumped(es: seq<Entry>, m: map<string, Bytes>, H: Hashes, n: nat) {
    && Theory.KeysApart(es)
    && (forall e :: e in es ==> e.key in m && m[e.key] == e.payload && ShardIndex(H, e.key) < n)
    && (forall k :: k in m && ShardIndex(H, k) < n ==> exists e :: e in es && e.key == k)
  }

  lemma DumpedNothing(m: map<string, Bytes>, H: Hashes)
    ensures Dumped([], m, H, 0)
  {
  }

  lemma DumpedAll(es: seq<Entry>, m: map<string, Bytes>, H: Hashes)
    requires Dumped(es, m, H, NUM_SHARDS)
    ensures Theory.KeysApart(es)
    ensures forall e :: e in es ==> e.key in m && m[e.key] == e.payload
    ensures forall k :: k in m ==> exists e :: e in es && e.key == k
  {
  }

  /** One shard's dump lists exactly the keys of the one map that route to it. */
  lemma DumpRoutes(shards: seq<Table>, H: Hashes, i: nat)
    requires ShardsOk(shards, H) && i < |shards| && ShardOk(shards[i], H, i)
    ensures var more, m := AllEntries(shards[i], shards[i].size), View(shards, H);
            && Theory.KeysApart(more)
            && (forall e :: e in more ==> e.key in m && m[e.key] == e.payload && ShardIndex(H, e.key) == i)
            && (forall k :: k in m && ShardIndex(H, k) == i ==> exists e :: e in more && e.key == k)
  {
    hide Theory.View, Theory.Accounted, AllEntries;
    Theory.AllEntriesExact(shards[i], H);
  }

  lemma DumpMore(es: seq<Entry>, more: seq<Entry>, m: map<string, Bytes>, H: Hashes, i: nat)
    requires Dumped(es, m, H, i) && Theory.KeysApart(more)
    requires forall e :: e in more ==> e.key in m && m[e.key] == e.payload && ShardIndex(H, e.key) == i
    requires forall k :: k in m && ShardIndex(H, k) == i ==> exists e :: e in more && e.key == k
    ensures Dumped(es + more, m, H, i + 1)
  {
    Theory.KeysApartConcat(es, more);
    forall k | k in m && ShardIndex(H, k) < i + 1 ensures exists e :: e in es + more && e.key == k {
      var part := if ShardIndex(H, k) == i then more else es;
      var e :| e in part && e.key == k;
      assert e in es + more;
    }
  }

  /** The cache of `KvEngine`: a fixed vector of in-place tables, each behind its own lock. */
  class ShardedCuckooTable {
    const hashes: Hashes
    const shards: seq<Cuckoo.CuckooTable>
    ghost const Repr: set<object>

    /** Everything one shard is made of. */
    ghost function ShardRepr(i: nat): set<object>
      requires i < |shards|
    {
      shards[i].Repr()
    }

    /** The shards share no buffer, and each stays inside its own. */
    ghost predicate Ready()
      reads Repr
    {
      && |shards| == NUM_SHARDS
      && (forall i :: 0 <= i < |shards| ==> shards[i].Repr() <= Repr && shards[i].hashes == hashes && shards[i].Ready())
      && forall i, j :: 0 <= i < j < |shards| ==> shards[i].Repr() !! shards[j].Repr()
    }

    ghost function Tables(): (ts: seq<Table>)
      reads Repr
      requires Ready()
      ensures |ts| == |shards| && forall i :: 0 <= i < |shards| ==> ts[i] == shards[i].Snapshot()
    {
      seq(|shards|,
        i requires 0 <= i < |shards| && shards[i].Ready() reads if 0 <= i < |shards| then shards[i].Repr() else {} =>
        shards[i].Snapshot())
    }

    ghost predicate Valid()
      reads Repr
    {
      Ready() && ShardsOk(Tables(), hashes)
    }

    ghost function Map(): map<string, Bytes>
      reads Repr
      requires Valid()
    {
      View(Tables(), hashes)
    }

    /** Each of the keys is held or has room at home for `n` more entries. */
    ghost predicate Fits(keys: seq<string>, n: nat)
      reads Repr
      requires Valid()
    {
      FitsIn(Tables(), hashes, keys, n)
    }

    /** The shards have the bucket counts and arenas of a cache for `total` items; neither ever changes. */
    ghost predicate SizedFor(total: nat) {
      forall i :: 0 <= i < |shards| ==>
        && shards[i].size == BucketsPerShard(total)
        && shards[i].storage.Length == |New(BucketsPerShard(total), 2 * (total / NUM_SHARDS), Entry("", [], false)).storage|
    }

    /** The engine's cache holds at most 266240 keys at any time. */
    lemma HoldsAtMost()
      requires Valid() && SizedFor(256 * 1024)
      ensures |Map().Keys| <= 266240
    {
      hide New, View, ShardsOk;
      EngineCacheBound(Tables(), hashes);
    }

    /** However many keys route to a shard, at most 4160 of them are held. */
    lemma ShardHoldsAtMost(i: nat)
      requires Valid() && SizedFor(256 * 1024) && i < NUM_SHARDS
      ensures |set k | k in Map() && ShardIndex(hashes, k) == i| <= 4160
    {
      hide New, Theory.View, Theory.Valid, Shape;
      ShardHolds(Tables()[i], hashes, i);
      var held := set k | k in Map() && ShardIndex(hashes, k) == i;
      SubsetSize(held, Theory.View(Tables()[i], hashes).Keys);
    }

    constructor (total: nat, hashes: Hashes)
      requires 2 * (total / NUM_SHARDS) <= NO_INDEX
      ensures Valid() && fresh(Repr) && Map() == map[] && this.hashes == hashes && SizedFor(total)
      ensures forall i :: 0 <= i < |shards| ==>
                shards[i].Snapshot() == New(BucketsPerShard(total), 2 * (total / NUM_SHARDS), Entry("", [], false))
      ensures forall keys: seq<string>, n: nat :: total / NUM_SHARDS >= 8 && n <= 16 ==> Fits(keys, n)
    {
      hide New, Theory.Valid, Theory.View, View, ShardsOk, Shape, FitsIn;
      this.hashes := hashes;
      var all, repr := NewShards(total, hashes);
      shards := all;
      Repr := repr;
      new;
      forall i | 0 <= i < |shards| ensures ShardOk(Tables()[i], hashes, i) && Theory.View(Tables()[i], hashes) == map[] {
        assert Tables()[i] == shards[i].Snapshot();
      }
      EmptyShards(Tables(), hashes);
      forall keys: seq<string>, n: nat | total / NUM_SHARDS >= 8 && n <= 16 ensures FitsIn(Tables(), hashes, keys, n) {
        NewFits(Tables(), hashes, total, keys, n);
      }
      assert forall i :: 0 <= i < |shards| ==> shards[i].storage.Length == |shards[i].Snapshot().storage|;
    }

    /** The loop that fills the vector with new tables. */
    static method NewShards(total: nat, hashes: Hashes) returns (all: seq<Cuckoo.CuckooTable>, ghost repr: set<object>)
      requires 2 * (total / NUM_SHARDS) <= NO_INDEX
      ensures |all| == NUM_SHARDS && fresh(repr)
      ensures forall j :: 0 <= j < |all| ==>
                && all[j].Repr() <= repr && all[j].hashes == hashes && all[j].size == BucketsPerShard(total)
                && all[j].Valid() && all[j].View() == map[]
                && all[j].Snapshot() == New(BucketsPerShard(total), 2 * (total / NUM_SHARDS), Entry("", [], false))
      ensures forall j, k :: 0 <= j < k < |all| ==> all[j].Repr() !! all[k].Repr()
    {
      hide New, Theory.Valid, Theory.View, Shape;
      all, repr := [], {};
      for i := 0 to NUM_SHARDS
        invariant |all| == i && fresh(repr)
        invariant forall j :: 0 <= j < i ==>
                    && all[j].Repr() <= repr && all[j].hashes == hashes && all[j].size == BucketsPerShard(total)
                    && all[j].Valid() && all[j].View() == map[]
                    && all[j].Snapshot() == New(BucketsPerShard(total), 2 * (total / NUM_SHARDS), Entry("", [], false))
        invariant forall j, k :: 0 <= j < k < i ==> all[j].Repr() !! all[k].Repr()
      {
        var shard := new Cuckoo.CuckooTable(BucketsPerShard(total), 2 * (total / NUM_SHARDS), hashes);
        all, repr := all + [shard], repr + shard.Repr();
      }
    }

    /** One shard changed in place, the others did not. */
    twostate lemma OneShardChanged(i: nat)
      requires old(Ready()) && i < |shards|
      requires shards[i].Ready()
      requires forall j :: 0 <= j < |shards| && j != i ==> unchanged(shards[j].Repr())
      ensures Ready() && Tables() == old(Tables())[i := shards[i].Snapshot()]
    {
    }

    /** A shard of a valid cache is a valid table with the shared hashes. */
    lemma ShardValid(i: nat)
      requires Valid() && i < NUM_SHARDS
      ensures i < |shards| && shards[i].Valid() && shards[i].hashes == hashes
      ensures Shape(shards[i].Snapshot()) && Tables()[i] == shards[i].Snapshot() && ShardOk(Tables()[i], hashes, i)
    {
      hide Theory.View, Theory.Accounted;
    }

    lemma ShardInRepr(key: string)
      requires Valid()
      ensures ShardIndex(hashes, key) < |shards| && ShardRepr(ShardIndex(hashes, key)) <= Repr
    {
    }

    /**
     Stores a payload; what the one map loses is the CLOCK victim and, on failure, one more key.  It
     loses nothing if the key is held or has room, and then uses up room for one entry at most.
     */
    method Insert(key: string, payload: Bytes) returns (ok: bool, ghost evicted: set<string>, ghost lost: set<string>)
      requires Valid()
      modifies ShardRepr(ShardIndex(hashes, key))
      ensures Valid()
      ensures Theory.MapInsert(old(Map()), Map(), key, payload, ok, evicted, lost)
      ensures Spared(old(Tables()), Tables(), hashes, key, evicted + lost)
    {
      hide View, CuckooModel.Insert, Theory.MapInsert, Theory.ClockChose, ShardsOk, Theory.View, Theory.Accounted,
        Shape, Spared;
      var i := ShardIndex(hashes, key);
      ShardValid(i);
      ghost var before := Tables();
      evicted, lost := InsertShard(before, hashes, key, payload);
      ghost var after := before[i := CuckooModel.Insert(before[i], hashes, key, payload).0];
      InsertSpares(before, after, hashes, key, payload, evicted, lost);
      ok := shards[i].Insert(key, payload);
      OneShardChanged(i);
    }

    method Lookup(key: string) returns (r: Option<Bytes>)
      requires Valid()
      modifies ShardRepr(ShardIndex(hashes, key))
      ensures Valid() && Map() == old(Map())
      ensures r == Get(old(Map()), key)
      ensures ShardsUseUp(old(Tables()), Tables(), hashes, 0)
    {
      hide View, CuckooModel.Lookup, ShardsOk, Theory.View, Theory.Accounted, Shape, ShardsUseUp;
      var i := ShardIndex(hashes, key);
      ShardValid(i);
      ghost var before := Tables();
      LookupShard(before, hashes, key);
      r := shards[i].Lookup(key);
      OneShardChanged(i);
    }

    method Remove(key: string) returns (ok: bool)
      requires Valid()
      modifies ShardRepr(ShardIndex(hashes, key))
      ensures Valid() && Map() == old(Map()) - {key}
      ensures ok <==> key in old(Map())
      ensures Removed(old(Tables()), Tables(), hashes, key)
    {
      hide View, CuckooModel.Remove, ShardsOk, Theory.View, Theory.Accounted, Shape, ShardsUseUp;
      var i := ShardIndex(hashes, key);
      ShardValid(i);
      ghost var before := Tables();
      RemoveShard(before, hashes, key);
      ok := shards[i].Remove(key);
      OneShardChanged(i);
    }

    /** The dumps of all shards, one after the other: every live entry once. */
    method GetAllEntries() returns (es: seq<Entry>)
      requires Valid()
      ensures Theory.KeysApart(es)
      ensures forall e :: e in es ==> e.key in Map() && Map()[e.key] == e.payload
      ensures forall k :: k in Map() ==> exists e :: e in es && e.key == k
    {
      hide Theory.View, Theory.Accounted, AllEntries, View, Shape, Dumped, Theory.KeysApart, ShardsOk;
      es := [];
      ghost var ts := Tables();
      DumpedNothing(View(ts, hashes), hashes);
      for i := 0 to |shards|
        invariant Valid() && Tables() == ts && Dumped(es, View(ts, hashes), hashes, i)
      {
        ShardValid(i);
        var more := shards[i].GetAllEntries();
        assert shards[i].Snapshot() == ts[i];
        OneShardChanged(i);
        assert ts[i := ts[i]] == ts;
        DumpRoutes(ts, hashes, i);
        DumpMore(es, more, View(ts, hashes), hashes, i);
        es := es + more;
      }
      DumpedAll(es, View(ts, hashes), hashes);
    }
  }
}
