/**
 Runs of the engine class that end badly.  In the first, more secrets are put to one shard than it can
 hold: every put is acknowledged, and then metadata reads of some of the paths are answered from the
 disk alone, so a new path is not found and an old one shows its old version.  In the second, a full
 queue splits a destroy.  The runs are of the class, so nothing about the cache's drops is taken as
 given; and for every pair of hashes there are paths that crowd one shard.
 */
module KvFailures {
  import opened Options
  import opened Maps
  import opened KvModel
  import opened KvTheorems
  import opened KvRuns
  import opened KvLifecycle
  import opened KvLimits
  import Cache = ShardedCuckooTable
  import Cuckoo = CuckooModel
  import Engines = KvEngine

  // ---------------------------------------------------------------------------
  // Puts to fresh paths while the worker sleeps

  /** The cache shows nothing newer than the disk about a path's metadata. */
  predicate AsOnDisk(cache: Store, D: Store, path: string) {
    MetaKey(path) in cache ==> Get(cache, MetaKey(path)) == Get(D, MetaKey(path))
  }

  /** One version was put to each of the paths in `done`, and nothing has reached the disk. */
  ghost predicate Filled(s: Engine, D: Store, done: set<string>) {
    && s.mode.Batch? && s.batch == [] && s.disk == D
    && (forall p: string :: p !in done ==> AsOnDisk(s.cache, D, p))
    && forall p :: p in done ==> Cur(Logical(s), p) == Cur(D, p) + 1
  }

  lemma NothingFilled(D: Store)
    ensures Filled(Open(D, Batch), D, {})
  {
  }

  /** A put to a fresh path is acknowledged, whatever the cache drops. */
  lemma PutFills(s: Engine, D: Store, done: set<string>, path: string, payload: Payload, env: Env)
    requires Shaped(D) && Filled(s, D, done) && path !in done && |s.queue| + 2 <= QUEUE_CAPACITY
    ensures var (s', r) := Step(s, PutVersion(path, payload, None), env);
            r == Done && Filled(s', D, done + {path}) && |s'.queue| == |s.queue| + 2
  {
    hide Shaped, Logical, ApplyAll, MetaKey, VersionKey, Cur, WithNewVersion, AsOnDisk;
    var (s', r) := Step(s, PutVersion(path, payload, None), env);
    FreshMeta(s, D, path, env.lostRead);
    var m := PutWrites(s, D, path, payload, env);
    forall p: string | p !in done + {path} ensures AsOnDisk(s'.cache, D, p) {
      assert AsOnDisk(s.cache, D, p);
      OthersAsOnDisk(s, D, path, payload, env, p);
    }
    forall p | p in done + {path} ensures Cur(Logical(s'), p) == Cur(D, p) + 1 {
      CurAfterPut(Logical(s), path, m, payload, env.now, p);
    }
  }

  lemma FreshMeta(s: Engine, D: Store, path: string, lost: set<string>)
    requires Shaped(D) && s.disk == D && AsOnDisk(s.cache, D, path)
    ensures DoReadMetadata(s, path, lost).1 == RefMeta(D, path)
    ensures RefMeta(D, path).Failed? ==> RefMeta(D, path) == Failed(NotFound)
    ensures Cur(D, path) == if RefMeta(D, path).Failed? then 0 else RefMeta(D, path).meta.current
  {
    assert MetaOk(D, path);
  }

  lemma PutWrites(s: Engine, D: Store, path: string, payload: Payload, env: Env) returns (m: KeyMetadata)
    requires Shaped(D) && s.disk == D && AsOnDisk(s.cache, D, path)
    requires s.mode.Batch? && s.batch == [] && |s.queue| + 2 <= QUEUE_CAPACITY
    ensures m.current == Cur(D, path)
    ensures var (s', r) := Step(s, PutVersion(path, payload, None), env);
            && r == Done && s'.mode.Batch? && s'.batch == [] && s'.disk == D && |s'.queue| == |s.queue| + 2
            && Logical(s') == Logical(s)[VersionKey(path, m.current + 1) := PayloadValue(payload)]
                                        [MetaKey(path) := MetaValue(WithNewVersion(m, env.now))]
  {
    hide Shaped, Logical, ApplyAll, MetaKey, VersionKey, WithNewVersion, AsOnDisk, RefMeta, Cur;
    FreshMeta(s, D, path, env.lostRead);
    var (s1, r) := DoReadMetadata(s, path, env.lostRead);
    m := if r.Failed? then DEFAULT_METADATA else r.meta;
    var a := Put(VersionKey(path, m.current + 1), PayloadValue(payload));
    var b := Put(MetaKey(path), MetaValue(WithNewVersion(m, env.now)));
    var s' := Step(s, PutVersion(path, payload, None), env).0;
    assert s'.queue == s.queue + [a] + [b];
    QueuedTwo(s, s', a, b);
  }

  lemma QueuedTwo(s: Engine, s': Engine, a: WriteOp, b: WriteOp)
    requires s.batch == [] && s'.batch == [] && s'.disk == s.disk && s'.queue == s.queue + [a] + [b]
    ensures Logical(s') == ApplyOp(ApplyOp(Logical(s), a), b)
  {
    hide ApplyAll, ApplyOp;
    assert Pending(s) == s.queue && Pending(s') == s.queue + [a] + [b];
    ApplySnoc(s.disk, s.queue, a);
    ApplySnoc(s.disk, s.queue + [a], b);
  }

  /** What the cache shows under a key, it showed before. */
  predicate NoNews(before: Store, after: Store, k: string) {
    k in after ==> k in before && after[k] == before[k]
  }

  lemma OthersAsOnDisk(s: Engine, D: Store, path: string, payload: Payload, env: Env, p: string)
    requires p != path && AsOnDisk(s.cache, D, p)
    ensures AsOnDisk(Step(s, PutVersion(path, payload, None), env).0.cache, D, p)
  {
    hide MetaKey, VersionKey, WithNewVersion, DoReadMetadata, Write, StoreMeta;
    OtherKeys(p, path);
    var k := MetaKey(p);
    var (s1, r) := DoReadMetadata(s, path, env.lostRead);
    assert NoNews(s.cache, s1.cache, k) by { ReadElsewhere(s, path, env.lostRead, k); }
    var m := if r.Failed? then DEFAULT_METADATA else r.meta;
    var vkey := VersionKey(path, m.current + 1);
    var w := Write(s1, Put(vkey, PayloadValue(payload)));
    if w.Some? {
      WriteFields(s1, Put(vkey, PayloadValue(payload)));
      var s3 := CacheInsert(w.value, vkey, PayloadValue(payload), env.lostFirst);
      MetaElsewhere(s3, path, WithNewVersion(m, env.now), env.lostSecond, k);
    }
  }

  lemma ReadElsewhere(s: Engine, path: string, lost: set<string>, k: string)
    requires k != MetaKey(path)
    ensures NoNews(s.cache, DoReadMetadata(s, path, lost).0.cache, k)
  {
  }

  lemma MetaElsewhere(s: Engine, path: string, m: KeyMetadata, lost: set<string>, k: string)
    requires k != MetaKey(path)
    ensures NoNews(s.cache, StoreMeta(s, path, m, lost).0.cache, k)
  {
  }

  lemma OtherKeys(p: string, path: string)
    requires p != path
    ensures MetaKey(p) != MetaKey(path) && forall v: nat :: MetaKey(p) != VersionKey(path, v)
  {
    if MetaKey(p) == MetaKey(path) { MetaKeyInjective(p, path); }
    forall v: nat ensures MetaKey(p) != VersionKey(path, v) { KeysDisjoint(p, path, v); }
  }

  lemma CurAfterPut(st: Store, path: string, m: KeyMetadata, payload: Payload, now: nat, p: string)
    ensures Cur(st[VersionKey(path, m.current + 1) := PayloadValue(payload)][MetaKey(path) := MetaValue(WithNewVersion(m, now))], p)
            == if p == path then m.current + 1 else Cur(st, p)
  {
    KeysDisjoint(p, path, m.current + 1);
    if MetaKey(p) == MetaKey(path) { MetaKeyInjective(p, path); }
  }

  /** A put to the path is in the logical store, and a metadata read answers from before it. */
  ghost predicate Forgotten(s: Engine, D: Store, path: string) {
    && Cur(Logical(s), path) == Cur(D, path) + 1
    && forall lost :: DoReadMetadata(s, path, lost).1 == RefMeta(D, path)
  }

  /** A path whose metadata left the cache is answered from a disk that does not know the put. */
  lemma LeavesStale(s: Engine, D: Store, done: set<string>, path: string)
    requires Filled(s, D, done) && path in done && MetaKey(path) !in s.cache
    ensures Forgotten(s, D, path)
  {
    hide MetaKey, Logical, Cur;
  }

  /**
   And the answer outlives the write: if the read kept the old metadata it brought into the cache, it
   is still served after any turns of the worker and its final drain, when the disk has the new one.
   */
  lemma StaleSurvivesFlush(s: Engine, path: string, lost: set<string>, ticks: seq<bool>, later: set<string>)
    requires Engines.Sound(s) && MetaKey(path) !in s.cache && MetaKey(path) in s.disk && MetaKey(path) !in lost
    ensures var (s1, r) := DoReadMetadata(s, path, lost);
            var t := Shutdown(Engines.Turns(s1, ticks));
            && Pending(t) == [] && t.disk == Logical(s)
            && r == RefMeta(s.disk, path) && DoReadMetadata(t, path, later).1 == r
  {
    hide MetaKey, Logical, ApplyAll, ModeOk, Logged, Indexed, Shutdown, Engines.Turns;
    var s1 := DoReadMetadata(s, path, lost).0;
    ReadSound(s, path, lost);
    Engines.TurnsSound(s1, ticks);
    Engines.DrainSound(Engines.Turns(s1, ticks));
  }

  lemma ReadSound(s: Engine, path: string, lost: set<string>)
    requires Engines.Sound(s)
    ensures var s1 := DoReadMetadata(s, path, lost).0; Engines.Sound(s1) && Logical(s1) == Logical(s)
  {
    hide ApplyAll, PathsIn;
    var env := Env(0, lost, {}, {});
    StepLogged(s, ReadMetadata(path), env);
    StepIndexed(s, ReadMetadata(path), env);
  }

  // ---------------------------------------------------------------------------
  // What is left out of a crowded shard

  /** Distinct paths have distinct metadata keys. */
  lemma {:induction false} PathsFit(paths: set<string>, keys: set<string>)
    requires forall p :: p in paths ==> MetaKey(p) in keys
    ensures |paths| <= |keys|
    decreases paths
  {
    if paths != {} {
      var p :| p in paths;
      forall q | q in paths - {p} ensures MetaKey(q) in keys - {MetaKey(p)} {
        if MetaKey(q) == MetaKey(p) { MetaKeyInjective(q, p); }
      }
      PathsFit(paths - {p}, keys - {MetaKey(p)});
    }
  }

  predicate Distinct(paths: seq<string>) {
    forall i, j :: 0 <= i < j < |paths| ==> paths[i] != paths[j]
  }

  lemma {:induction false} DistinctSize(paths: seq<string>)
    requires Distinct(paths)
    ensures |Engines.Elements(paths)| == |paths|
    decreases |paths|
  {
    if paths != [] {
      var rest, last := paths[..|paths| - 1], paths[|paths| - 1];
      DistinctSize(rest);
      assert Engines.Elements(paths) == Engines.Elements(rest) + {last};
      assert last !in rest;
    }
  }

  /** All but 4160 of the crowding paths have no metadata in the cache. */
  lemma LeftOut(e: Engines.KvEngine, paths: seq<string>, shard: nat) returns (victims: set<string>)
    requires e.Valid() && Distinct(paths) && shard < Cache.NUM_SHARDS
    requires forall p :: p in paths ==> Cache.ShardIndex(e.cache.hashes, MetaKey(p)) == shard
    ensures |victims| + 4160 >= |paths|
    ensures forall p :: p in victims ==> p in paths && MetaKey(p) !in e.State().cache
  {
    hide Engines.Sound, Engines.KvEngine.Parts, Engines.KvEngine.State, MetaKey, Cache.ShardIndex;
    var held := e.CachePerShard(shard);
    victims := NotHeld(paths, e.State().cache, held);
  }

  lemma NotHeld(paths: seq<string>, cache: Store, held: set<string>) returns (victims: set<string>)
    requires Distinct(paths) && forall p :: p in paths && MetaKey(p) in cache ==> MetaKey(p) in held
    ensures |victims| + |held| >= |paths|
    ensures forall p :: p in victims ==> p in paths && MetaKey(p) !in cache
  {
    hide MetaKey, Distinct;
    var all := Engines.Elements(paths);
    victims := set p | p in all && MetaKey(p) !in cache;
    DistinctSize(paths);
    PathsFit(all - victims, held);
    assert all == (all - victims) + victims;
  }

  /** One put to each of some paths of an engine just opened, with room for them all in the queue. */
  method PutAll(e: Engines.KvEngine, ghost D: Store, paths: seq<string>, payload: Payload, now: nat)
    returns (acks: seq<Response>)
    requires e.Valid() && e.State() == Open(D, Batch) && Shaped(D)
    requires Distinct(paths) && 2 * |paths| <= QUEUE_CAPACITY
    modifies e`disk, e`queue, e`log, e.cache.Repr, e.index
    ensures e.Valid() && Filled(e.State(), D, Engines.Elements(paths))
    ensures |acks| == |paths| && forall i :: 0 <= i < |acks| ==> acks[i] == Done
  {
    hide Engines.KvEngine.Parts, Engines.KvEngine.State, Engines.Sound, Shaped, Filled, Good, Possible, Direct,
      Refines, Kept, Step, Engines.Undisturbed, Engines.KvEngine.Roomy, PathsIn;
    acks := [];
    NothingFilled(D);
    assert Engines.Elements(paths[..0]) == {};
    for i := 0 to |paths|
      invariant e.Valid() && Filled(e.State(), D, Engines.Elements(paths[..i])) && |e.State().queue| == 2 * i
      invariant |acks| == i && forall j :: 0 <= j < i ==> acks[j] == Done
    {
      ghost var s := e.State();
      var r;
      ghost var env;
      r, env := e.PutVersion(paths[i], payload, None, now);
      assert paths[i] !in paths[..i];
      PutFills(s, D, Engines.Elements(paths[..i]), paths[i], payload, env);
      assert Engines.Elements(paths[..i + 1]) == Engines.Elements(paths[..i]) + {paths[i]};
      acks := acks + [r];
    }
    assert paths[..|paths|] == paths;
  }

  /**
   Puts to more paths of one shard than it can hold, on an engine just opened, with room for all of
   them in the queue: each is acknowledged, and afterwards all but 4160 of the paths are answered as
   if nothing had been put, although every put is in the logical store.
   */
  method Overload(e: Engines.KvEngine, ghost D: Store, paths: seq<string>, ghost shard: nat, payload: Payload, now: nat)
    returns (acks: seq<Response>, ghost victims: set<string>)
    requires e.Valid() && e.State() == Open(D, Batch) && Shaped(D)
    requires Distinct(paths) && 2 * |paths| <= QUEUE_CAPACITY && shard < Cache.NUM_SHARDS
    requires forall p :: p in paths ==> Cache.ShardIndex(e.cache.hashes, MetaKey(p)) == shard
    modifies e`disk, e`queue, e`log, e.cache.Repr, e.index
    ensures e.Valid()
    ensures |acks| == |paths| && forall i :: 0 <= i < |acks| ==> acks[i] == Done
    ensures |victims| + 4160 >= |paths| && forall p :: p in victims ==> p in paths && Forgotten(e.State(), D, p)
  {
    hide Engines.KvEngine.Parts, Engines.KvEngine.State, Engines.Sound, Shaped, Filled, MetaKey, Cache.ShardIndex,
      Forgotten, PathsIn;
    acks := PutAll(e, D, paths, payload, now);
    victims := LeftOut(e, paths, shard);
    forall p | p in victims ensures Forgotten(e.State(), D, p) {
      LeavesStale(e.State(), D, Engines.Elements(paths), p);
    }
  }

  // ---------------------------------------------------------------------------
  // Every pair of hashes has crowded shards

  /** The path of `n` letters. */
  function Letters(n: nat): string {
    seq(n, _ => 'a')
  }

  /** Those of the first `n` such paths whose metadata key routes to a shard. */
  function RoutedTo(H: Cuckoo.Hashes, shard: nat, n: nat): (paths: seq<string>)
    ensures Distinct(paths) && forall p :: p in paths ==> |p| < n && Cache.ShardIndex(H, MetaKey(p)) == shard
  {
    if n == 0 then []
    else
      var rest := RoutedTo(H, shard, n - 1);
      if Cache.ShardIndex(H, MetaKey(Letters(n - 1))) == shard then rest + [Letters(n - 1)] else rest
  }

  ghost function RoutedBelow(H: Cuckoo.Hashes, shards: nat, n: nat): nat {
    if shards == 0 then 0 else |RoutedTo(H, shards - 1, n)| + RoutedBelow(H, shards - 1, n)
  }

  lemma RoutedNext(H: Cuckoo.Hashes, shard: nat, n: nat)
    ensures |RoutedTo(H, shard, n + 1)| ==
            |RoutedTo(H, shard, n)| + if Cache.ShardIndex(H, MetaKey(Letters(n))) == shard then 1 else 0
  {
    hide MetaKey, Letters, Cache.ShardIndex, Distinct;
  }

  lemma {:induction false} OneMorePath(H: Cuckoo.Hashes, shards: nat, n: nat)
    ensures RoutedBelow(H, shards, n + 1) ==
            RoutedBelow(H, shards, n) + if Cache.ShardIndex(H, MetaKey(Letters(n))) < shards then 1 else 0
    decreases shards
  {
    hide MetaKey, Letters, Cache.ShardIndex, Distinct, RoutedTo;
    if shards > 0 {
      OneMorePath(H, shards - 1, n);
      RoutedNext(H, shards - 1, n);
    }
  }

  /** Every path is routed to one of the 64 shards. */
  lemma {:induction false} AllRouted(H: Cuckoo.Hashes, n: nat)
    ensures RoutedBelow(H, Cache.NUM_SHARDS, n) == n
    decreases n
  {
    hide MetaKey, Letters, Cache.ShardIndex, Distinct, RoutedTo, RoutedBelow;
    if n == 0 {
      NonePlaced(H, Cache.NUM_SHARDS);
    } else {
      AllRouted(H, n - 1);
      OneMorePath(H, Cache.NUM_SHARDS, n - 1);
    }
  }

  lemma {:induction false} NonePlaced(H: Cuckoo.Hashes, shards: nat)
    ensures RoutedBelow(H, shards, 0) == 0
  {
    if shards > 0 { NonePlaced(H, shards - 1); }
  }

  lemma {:induction false} Pigeonhole(H: Cuckoo.Hashes, shards: nat, n: nat, most: nat)
    requires forall i :: 0 <= i < shards ==> |RoutedTo(H, i, n)| <= most
    ensures RoutedBelow(H, shards, n) <= shards * most
  {
    hide MetaKey, Cache.ShardIndex, Distinct, RoutedTo;
    if shards > 0 { Pigeonhole(H, shards - 1, n, most); }
  }

  /** Whatever the hashes, some shard is home to the metadata of any number of distinct paths. */
  lemma Crowded(H: Cuckoo.Hashes, count: nat) returns (shard: nat)
    requires count >= 1
    ensures shard < Cache.NUM_SHARDS && |RoutedTo(H, shard, Cache.NUM_SHARDS * (count - 1) + 1)| >= count
  {
    var n := Cache.NUM_SHARDS * (count - 1) + 1;
    if forall i :: 0 <= i < Cache.NUM_SHARDS ==> |RoutedTo(H, i, n)| <= count - 1 {
      Pigeonhole(H, Cache.NUM_SHARDS, n, count - 1);
      AllRouted(H, n);
      assert false;
    }
    shard :| 0 <= shard < Cache.NUM_SHARDS && |RoutedTo(H, shard, n)| >= count;
  }

  /**
   No hashes save the engine: opened on any well-formed disk, 4161 acknowledged puts leave a path
   whose metadata read does not show its put.
   */
  method EveryEngineOverloads(
    D: Store, hashes: Cuckoo.Hashes, encode: Value -> Cuckoo.Bytes, decode: Cuckoo.Bytes -> Value, payload: Payload, now: nat)
    returns (e: Engines.KvEngine, acks: seq<Response>, ghost victim: string)
    requires Shaped(D) && forall v: Value :: decode(encode(v)) == v
    ensures e.Valid() && Forgotten(e.State(), D, victim)
    ensures |acks| == 4161 && forall i :: 0 <= i < |acks| ==> acks[i] == Done
  {
    hide Engines.KvEngine.Parts, Engines.KvEngine.State, Engines.Sound, MetaKey, Shaped, Forgotten, RoutedTo, PathsIn;
    e := new Engines.KvEngine(D, hashes, encode, decode);
    e.AtRest("");
    ghost var home := Crowded(hashes, 4161);
    var n := Cache.NUM_SHARDS * 4160 + 1;
    var shard :| 0 <= shard < Cache.NUM_SHARDS && |RoutedTo(hashes, shard, n)| >= 4161;
    var paths := RoutedTo(hashes, shard, n)[..4161];
    ghost var victims;
    acks, victims := Overload(e, D, paths, shard, payload, now);
    victim :| victim in victims;
  }

  // ---------------------------------------------------------------------------
  // A destroy that the queue splits

  /** Metadata and payload of the one version are cached. */
  predicate Warm(s: Engine, path: string) {
    MetaKey(path) in s.cache && VersionKey(path, 1) in s.cache
  }

  /** `n` writes are queued; they add up to the one version. */
  ghost predicate Idling(s: Engine, path: string, p: Payload, n: nat) {
    Good(s) && Warm(s, path) && s.mode.Batch? && |s.queue| == n && Logical(s) == OneVersion(path, p)
  }

  /** The first read of an opened version warms the cache. */
  lemma FirstRead(path: string, p: Payload, env: Env)
    requires env == QUIET
    ensures var s := Open(OneVersion(path, p), Batch);
            var (s', r) := Step(s, ReadVersion(path, 1), env);
            Idling(s', path, p, 0)
  {
    hide Shaped, Logical, ApplyAll, MetaKey, VersionKey, PathsIn, CoherentExcept, Step, RefStep;
    var s := Open(OneVersion(path, p), Batch);
    OneVersionOk(path, p);
    OpenGood(OneVersion(path, p), Batch);
    QuietKept(s, ReadVersion(path, 1));
    ReadAnswered(s, path);
    StepRefines(s, ReadVersion(path, 1), QUIET);
    FirstReadWarms(path, p);
  }

  lemma FirstReadWarms(path: string, p: Payload)
    ensures var s := Open(OneVersion(path, p), Batch);
            var s' := Step(s, ReadVersion(path, 1), QUIET).0;
            Warm(s', path) && s'.queue == []
  {
    hide MetaKey, VersionKey, PathsIn;
    KeysDisjoint(path, path, 1);
  }

  /** While its keys are cached, an undelete drops nothing and leaves everything as it was. */
  lemma IdleOn(s: Engine, path: string, p: Payload, n: nat, env: Env)
    requires Idling(s, path, p, n) && n < QUEUE_CAPACITY
    requires Possible(s, Undelete(path, 1), env) && env == Env(1, env.lostRead, {}, env.lostSecond)
    ensures Idling(Step(s, Undelete(path, 1), env).0, path, p, n + 1)
  {
    hide Good, Logical, MetaKey, VersionKey, OneVersion, ChangeVersion, Step;
    UndeleteQuiet(s, path, env);
    OneMoreUndelete(s, path, p);
  }

  lemma UndeleteQuiet(s: Engine, path: string, env: Env)
    requires Warm(s, path) && Possible(s, Undelete(path, 1), env) && env == Env(1, env.lostRead, {}, env.lostSecond)
    ensures env == QUIET && Warm(Step(s, Undelete(path, 1), env).0, path)
  {
    hide MetaKey, VersionKey, ChangeVersion;
  }

  /** The destroy that finds one cell left. */
  lemma TurnedAway(s: Engine, path: string, p: Payload, env: Env)
    requires Idling(s, path, p, QUEUE_CAPACITY - 1)
    requires Possible(s, DestroyVersion(path, 1), env) && env == Env(1, env.lostRead, {}, env.lostSecond)
    ensures var (s', r) := Step(s, DestroyVersion(path, 1), env);
            r == Failed(QueueFull) && Logical(s') == OneVersion(path, p) - {VersionKey(path, 1)}
  {
    hide Good, Logical, MetaKey, VersionKey, OneVersion, ChangeVersion, Step, Live, RefStep, StoreOk;
    OneVersionOk(path, p);
    DestroyQuiet(s, path, env);
    QuietKept(s, DestroyVersion(path, 1));
    HalfDestroy(s, path, 1, QUIET);
  }

  lemma DestroyQuiet(s: Engine, path: string, env: Env)
    requires Warm(s, path) && Possible(s, DestroyVersion(path, 1), env) && env == Env(1, env.lostRead, {}, env.lostSecond)
    ensures env == QUIET
  {
    KeysDisjoint(path, path, 1);
    hide MetaKey, VersionKey;
  }

  /** A read of the version while its keys are cached. */
  lemma WarmRead(s: Engine, path: string, p: Payload, n: nat, env: Env)
    requires Idling(s, path, p, n) && env.now == 1
    ensures var (s', r) := Step(s, ReadVersion(path, 1), env);
            r == Data(p, VersionState(1, 0, 1, false)) && s' == s
  {
    hide Good, Logical, MetaKey, VersionKey, OneVersion, RefStep, Step, StoreOk, Live;
    OneVersionOk(path, p);
    QuietKept(s, ReadVersion(path, 1));
    ReadAnswered(s, path);
    HitsOnly(s, path, env);
  }

  lemma HitsOnly(s: Engine, path: string, env: Env)
    requires Warm(s, path)
    ensures Step(s, ReadVersion(path, 1), env) == (s, Step(s, ReadVersion(path, 1), QUIET).1)
  {
    hide MetaKey, VersionKey;
  }

  /** Undeletes of a readable version fill the queue while the worker sleeps. */
  method FillQueue(e: Engines.KvEngine, path: string, ghost p: Payload, n: nat)
    requires e.Valid() && Idling(e.State(), path, p, 0) && n <= QUEUE_CAPACITY
    modifies e`disk, e`queue, e`log, e.cache.Repr
    ensures e.Valid() && Idling(e.State(), path, p, n)
  {
    hide Engines.KvEngine.Parts, Engines.KvEngine.State, Engines.Sound, Idling, Good, Possible, Direct, Refines,
      Kept, Step, Engines.Undisturbed, Engines.KvEngine.Roomy;
    for i := 0 to n
      invariant e.Valid() && Idling(e.State(), path, p, i)
    {
      ghost var s := e.State();
      var r;
      ghost var env;
      r, env := e.ChangeMetadata(Undelete(path, 1), 1);
      IdleOn(s, path, p, i, env);
    }
  }

  /** A new engine on a disk that lists the version and lacks its payload. */
  method ReadsAfter(
    disk: Store, path: string, ghost p: Payload, hashes: Cuckoo.Hashes, encode: Value -> Cuckoo.Bytes, decode: Cuckoo.Bytes -> Value)
    returns (listed: Response, read: Response)
    requires forall v: Value :: decode(encode(v)) == v
    requires disk == OneVersion(path, p) - {VersionKey(path, 1)}
    ensures listed == Metadata(FIRST) && read == Failed(StorageError)
  {
    hide Engines.KvEngine.Parts, Engines.KvEngine.State, Engines.Sound, Good, Possible, Direct, Refines, Kept,
      Engines.Undisturbed, Engines.KvEngine.Roomy, MetaKey, VersionKey, PathsIn, DoReadMetadata, DoReadVersion;
    var e := new Engines.KvEngine(disk, hashes, encode, decode);
    e.AtRest("");
    ghost var env;
    ghost var s := e.State();
    listed, env := e.ReadMetadata(path, 1);
    ghost var lost := env.lostRead;
    read, env := e.ReadVersion(path, 1, 1);
    Emptied(path, p, s, lost, env);
  }

  lemma Emptied(path: string, p: Payload, s: Engine, lost: set<string>, env: Env)
    requires s == Open(OneVersion(path, p) - {VersionKey(path, 1)}, Batch)
    ensures var (mid, listed) := DoReadMetadata(s, path, lost);
            listed == Metadata(FIRST) && DoReadVersion(mid, path, 1, env).1 == Failed(StorageError)
  {
    hide MetaKey, VersionKey, PathsIn;
    KeysDisjoint(path, path, 1);
  }

  /**
   Whatever the hashes: a stored version is read, its destroy is turned away by a full queue, and
   after a shutdown and a reopen the version is listed and cannot be read.
   */
  method DestroyTurnedAway(
    path: string, p: Payload, hashes: Cuckoo.Hashes, encode: Value -> Cuckoo.Bytes, decode: Cuckoo.Bytes -> Value)
    returns (read: Response, refused: Response, listed: Response, after: Response)
    requires forall v: Value :: decode(encode(v)) == v
    ensures read == Data(p, VersionState(1, 0, 1, false)) && refused == Failed(QueueFull)
    ensures listed == Metadata(FIRST) && after == Failed(StorageError)
  {
    hide Engines.KvEngine.Parts, Engines.KvEngine.State, Engines.Sound, Idling, Good, Possible, Direct, Refines,
      Kept, Step, Engines.KvEngine.Roomy, Logical, OneVersion, ApplyAll, Shutdown, PathsIn;
    var e := new Engines.KvEngine(OneVersion(path, p), hashes, encode, decode);
    e.AtRest("");
    ghost var env;
    read, env := e.ReadVersion(path, 1, 1);
    FirstRead(path, p, env);
    FillQueue(e, path, p, QUEUE_CAPACITY - 1);
    ghost var s := e.State();
    read, env := e.ReadVersion(path, 1, 1);
    WarmRead(s, path, p, QUEUE_CAPACITY - 1, env);
    refused, env := e.DestroyVersion(path, 1, 1);
    TurnedAway(s, path, p, env);
    e.AsyncWorkerLoop([]);
    listed, after := ReadsAfter(e.disk, path, p, hashes, encode, decode);
  }
}
