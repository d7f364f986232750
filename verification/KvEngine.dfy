/**
 The engine object over the real cache and the real path index: a sharded cuckoo table and a B-tree,
 updated in place, request by request and worker turn by worker turn.  What `KvModel` takes as a
 parameter, the keys dropped by the cache, is here what the table drops; it is returned as a ghost
 `Env`.  Every method keeps `Valid`, so disk, batch and queue always add up to the fold of all writes
 and the index lists the stored paths; and every request is `Served`.
 */
module KvEngine {
  import opened Options
  import opened Maps
  import opened KvModel
  import opened KvTheorems
  import opened KvRuns
  import Answers = KvAnswers
  import Arithmetic
  import Cache = ShardedCuckooTable
  import Cuckoo = CuckooModel
  import CuckooTheorems
  import Index = BTreeIndex

  /** The worker loop's turns while it runs, one timeout flag each. */
  function Turns(s: Engine, ticks: seq<bool>): Engine
    decreases |ticks|
  {
    if ticks == [] then s else WorkerTurn(Turns(s, ticks[..|ticks| - 1]), ticks[|ticks| - 1])
  }

  /** Marks the requested version deleted, restored or destroyed. */
  method MarkVersion(m: KeyMetadata, req: Request, now: nat) returns (c: Change)
    requires req.SoftDelete? || req.Undelete? || req.DestroyVersion?
    ensures c == ChangeVersion(m, req, now)
  {
    for i := 0 to |m.versions|
      invariant Find(m.versions, req.version, 0) == Find(m.versions, req.version, i)
    {
      var v := m.versions[i];
      if v.id == req.version {
        if req.SoftDelete? {
          v := v.(deletionMs := now);
        } else if req.Undelete? {
          if v.destroyed {
            return Refused(Destroyed);
          }
          v := v.(deletionMs := 0);
        } else {
          v := v.(destroyed := true);
        }
        return Changed(m.(versions := m.versions[i := v]));
      }
    }
    return Refused(InvalidVersion(req.version));
  }

  /** Looks up the version a read is after and whether it may be read. */
  method CheckAccess(m: KeyMetadata, version: nat) returns (a: Access)
    ensures a == Readable(m, version)
  {
    var target := if version == 0 then m.current else version;
    var found: Option<VersionState> := None;
    for i := 0 to |m.versions|
      invariant found.None? && Find(m.versions, target, 0) == Find(m.versions, target, i)
    {
      if m.versions[i].id == target {
        found := Some(m.versions[i]);
        break;
      }
    }
    if target == 0 || found.None? {
      return Denied(InvalidVersion(version));
    }
    if found.value.destroyed {
      return Denied(Destroyed);
    }
    if found.value.deletionMs > 0 {
      return Denied(SoftDeleted);
    }
    a := Granted(VersionState(found.value.createdMs, found.value.deletionMs, target, found.value.destroyed));
  }

  // ---------------------------------------------------------------------------
  // What a caller of the engine is told

  /** What holds of the engine between requests in every run. */
  ghost predicate Sound(s: Engine) {
    ModeOk(s) && Logged(s) && Indexed(s)
  }

  /**
   A request was served: the drops are within the bound; while they spare the writes under way and no
   destroy is split, answer and store are the cacheless engine's, and mean what `KvAnswers` says of the
   metadata and payloads stored before; in Immediate mode they always are.
   */
  ghost predicate Served(s: Engine, req: Request, env: Env, s': Engine, r: Response) {
    && (s', r) == Step(s, req, env) && Possible(s, req, env)
    && (Good(s) && Kept(s, req, env) ==>
          && Refines(s, req, env, s', r)
          && (r != Failed(QueueFull) ==> Answers.Means(Logical(s), Logical(s'), req, env.now, r)))
    && (Direct(s) ==> Direct(s') && (s'.disk, r) == RefStep(s.disk, req, env.now))
  }

  lemma ServedStep(s: Engine, req: Request, env: Env)
    requires Sound(s) && Possible(s, req, env)
    ensures var (s', r) := Step(s, req, env); Sound(s') && Served(s, req, env, s', r)
  {
    hide Step, Good, Kept, Refines, Direct, Logged, Indexed, RefStep, Possible, Logical, Answers.Means;
    StepLogged(s, req, env);
    StepIndexed(s, req, env);
    if Good(s) && Kept(s, req, env) {
      StepRefines(s, req, env);
      Answers.StepMeans(s, req, env);
    }
    if Direct(s) { DirectStep(s, req, env); }
  }

  /** A request dropped nothing; from a good state it was then answered as by the cacheless engine. */
  ghost predicate Undisturbed(s: Engine, req: Request, env: Env, s': Engine, r: Response) {
    && env == Env(env.now, {}, {}, {})
    && (Good(s) && !SplitsDestroy(s, req) ==> Refines(s, req, env, s', r))
  }

  /** Where nothing was dropped, only a split destroy stands between request and refinement. */
  lemma QuietServed(s: Engine, req: Request, env: Env, s': Engine, r: Response)
    requires Served(s, req, env, s', r) && env == Env(env.now, {}, {}, {})
    ensures Undisturbed(s, req, env, s', r)
  {
    hide Good, Refines, Step, Possible, RefStep, SplitsDestroy;
  }

  /** So where there was room, an acknowledged write is what the next metadata read shows. */
  lemma RoomyAckVisible(s: Engine, req: Request, env: Env, s': Engine, r: Response, lost: set<string>)
    requires Undisturbed(s, req, env, s', r) && Good(s) && !SplitsDestroy(s, req) && r.Done?
    ensures Logical(s') == RefStep(Logical(s), req, env.now).0
    ensures DoReadMetadata(s', req.path, lost).1 == RefMeta(Logical(s'), req.path)
  {
    hide Good, Logical, RefStep, SplitsDestroy, MetaKey;
    ReadMetaRight(s', req.path, {});
  }

  lemma TouchedKeys(s: Engine, req: Request, lost: set<string>)
    ensures var r := DoReadMetadata(s, req.path, lost).1;
            && MetaKey(req.path) in Touched(s, req)
            && (req.PutVersion? ==>
                  VersionKey(req.path, (if r.Metadata? then r.meta.current else 0) + 1) in Touched(s, req))
            && (req.ReadVersion? && r.Metadata? && Readable(r.meta, req.version).Granted? ==>
                  VersionKey(req.path, Readable(r.meta, req.version).state.id) in Touched(s, req))
  {
    hide MetaKey, VersionKey, Readable;
  }

  lemma OnlyMetaTouched(s: Engine, req: Request, version: nat)
    requires req.DestroyVersion?
    ensures VersionKey(req.path, version) !in Touched(s, req)
  {
    KeysDisjoint(req.path, req.path, version);
  }

  /**
   What a read through the layers answers: the logical value, exactly when the key is cached or the
   disk has caught up with it.
   */
  ghost predicate ReadRight(s: Engine, k: string, lost: set<string>, s1: Engine, v: Option<Value>) {
    && (Submap(s.cache, Logical(s)) ==>
          (v == Get(Logical(s), k) <==> k in s.cache || Get(s.disk, k) == Get(Logical(s), k)))
    && (Coherent(s) && !Dead(Logical(s), k) ==> v == Get(Logical(s), k))
    && (Coherent(s) && !Dead(Logical(s), k) && lost !! PendingKeys(s) ==> Coherent(s1))
  }

  lemma ReadAnswers(s: Engine, k: string, lost: set<string>)
    ensures var (s1, v) := ReadRaw(s, k, lost); ReadRight(s, k, lost, s1, v)
  {
    hide CoherentExcept, Dead, Logical, KeysOf;
    if Submap(s.cache, Logical(s)) { ReadRightIff(s, k, lost); }
    if Coherent(s) && !Dead(Logical(s), k) {
      ReadCoherent(s, k, {});
      if lost !! PendingKeys(s) { ReadCoherent(s, k, lost); }
    }
  }

  lemma ReadSpares(
    before: seq<Cuckoo.Table>, mid: seq<Cuckoo.Table>, after: seq<Cuckoo.Table>, H: Cuckoo.Hashes, key: string,
    lost: set<string>, inserted: bool)
    requires Cache.ShardsUseUp(before, mid, H, 0) && Cache.View(mid, H) == Cache.View(before, H)
    requires if inserted then Cache.Spared(mid, after, H, key, lost) else after == mid && lost == {}
    ensures Cache.Spared(before, after, H, key, lost)
  {
    hide Cache.ShardsUseUp, Cache.View, Cache.Spared;
    if inserted { Cache.LookThenInsert(before, mid, after, H, key, lost); } else { Cache.RestSpares(before, mid, H, key); }
  }

  lemma NoInsertSpares(ts: seq<Cuckoo.Table>, H: Cuckoo.Hashes, key: string)
    requires Cache.ShardsOk(ts, H)
    ensures Cache.Spared(ts, ts, H, key, {})
  {
    hide Cache.ShardsOk, Cache.Spared, Cache.ShardsUseUp;
    Cache.NoneUsedUp(ts, H);
    Cache.RestSpares(ts, ts, H, key);
  }

  /** The cache contents, decoded. */
  function Decoded(m: map<string, Cuckoo.Bytes>, decode: Cuckoo.Bytes -> Value): Store {
    map k | k in m :: decode(m[k])
  }

  lemma DecodedInsert(m: map<string, Cuckoo.Bytes>, k: string, b: Cuckoo.Bytes, less: set<string>, decode: Cuckoo.Bytes -> Value)
    ensures Decoded(m[k := b] - less, decode) == Decoded(m, decode)[k := decode(b)] - less
  {
  }

  /** An insert into the table is an insert into the modelled cache, with drops within the bound. */
  lemma InsertDrops(
    before: map<string, Cuckoo.Bytes>, after: map<string, Cuckoo.Bytes>, k: string, b: Cuckoo.Bytes,
    ok: bool, evicted: set<string>, lost: set<string>)
    requires CuckooTheorems.MapInsert(before, after, k, b, ok, evicted, lost)
    ensures after == before[k := b] - (evicted + lost)
    ensures evicted + lost <= before.Keys + {k} && |evicted + lost| <= 2 && (k in before ==> evicted + lost == {})
  {
    var all := before.Keys + {k};
    assert lost == {} || exists x :: x in all && lost == {x} by {
      if lost != {} {
        var x :| x in (before - evicted)[k := b] && lost == {x};
        assert x in all;
      }
    }
    assert evicted == {} || exists x :: x in all && evicted == {x} by {
      if evicted != {} {
        var x :| x in before && evicted == {x};
        assert x in all;
      }
    }
    AtMostTwo(all, evicted, lost);
    DropBoth(before, k, b, evicted, lost);
  }

  lemma DropBoth(m: map<string, Cuckoo.Bytes>, k: string, b: Cuckoo.Bytes, a: set<string>, c: set<string>)
    requires k !in a
    ensures (m - a)[k := b] - c == m[k := b] - (a + c)
  {
  }

  lemma AtMostTwo(all: set<string>, a: set<string>, b: set<string>)
    requires a == {} || exists x :: x in all && a == {x}
    requires b == {} || exists x :: x in all && b == {x}
    ensures a + b <= all && |a + b| <= 2
  {
    assert |a| <= 1 && |b| <= 1;
    assert a + b == a + (b - a);
  }

  /** The paths behind the metadata keys among some keys. */
  function PathsOf(keys: set<string>): set<string> {
    set k | k in keys && |k| >= 2 && k[..2] == "m:" :: k[2..]
  }

  function Elements(paths: seq<string>): set<string> {
    set p | p in paths
  }

  lemma ElementsInsert(paths: seq<string>, path: string)
    ensures Elements(Index.SortedInsert(paths, path)) == Elements(paths) + {path}
  {
    Index.SortedInsertElements(paths, path);
    var after := Index.SortedInsert(paths, path);
    forall p ensures p in after <==> p in paths || p == path {
      assert p in after <==> p in multiset(after);
      assert p in paths <==> p in multiset(paths);
    }
  }

  class KvEngine {
    const cache: Cache.ShardedCuckooTable
    const index: Index.BTreeIndex
    const encode: Value -> Cuckoo.Bytes
    const decode: Cuckoo.Bytes -> Value
    var mode: SyncMode
    var queue: seq<WriteOp>
    var batch: seq<WriteOp>
    var disk: Store
    ghost var base: Store
    ghost var log: seq<WriteOp>
    ghost const Repr: set<object>

    /** Cache and index are valid and apart, and the codec loses nothing. */
    ghost predicate Parts()
      reads Repr
    {
      && {this, index} + cache.Repr <= Repr && this !in cache.Repr && index !in cache.Repr
      && cache.Valid() && cache.SizedFor(256 * 1024) && index.Valid() && index.minDegree == 3
      && forall v: Value :: decode(encode(v)) == v
    }

    ghost function State(): Engine
      reads Repr
      requires Parts()
    {
      Engine(mode, Decoded(cache.Map(), decode), queue, batch, disk, Elements(index.Paths()), base, log)
    }

    ghost predicate Valid()
      reads Repr
    {
      Parts() && Sound(State())
    }

    /** The cache's tables. */
    ghost function Tables(): (ts: seq<Cuckoo.Table>)
      reads Repr
      requires Parts()
      ensures Cache.ShardsOk(ts, cache.hashes)
    {
      cache.Tables()
    }

    /** Every key a request may insert is cached or has room at home for all its inserts. */
    ghost predicate Roomy(req: Request)
      reads Repr
      requires Parts()
    {
      Cache.FitsIn(Tables(), cache.hashes, Touched(State(), req), Inserts(req))
    }

    /** Opens a disk, rebuilding the path index from its metadata keys in any order. */
    constructor (disk: Store, hashes: Cuckoo.Hashes, encode: Value -> Cuckoo.Bytes, decode: Cuckoo.Bytes -> Value)
      requires forall v: Value :: decode(encode(v)) == v
      ensures Valid() && fresh(Repr) && State() == Open(disk, Batch) && cache.hashes == hashes
      ensures forall req :: Roomy(req)
    {
      hide Sound, Touched, Cache.FitsIn, Elements, PathsIn, Cache.ShardedCuckooTable.Valid,
        Cache.ShardedCuckooTable.SizedFor, Cache.ShardedCuckooTable.Map, Index.BTreeIndex.Valid,
        Index.BTreeIndex.Paths;
      this.encode, this.decode := encode, decode;
      var table := new Cache.ShardedCuckooTable(256 * 1024, hashes);
      var tree := new Index.BTreeIndex(3);
      RebuildIndex(tree, disk);
      cache, index := table, tree;
      Repr := {this, tree} + table.Repr;
      mode, queue, batch, this.disk := Batch, [], [], disk;
      base, log := disk, [];
      new;
      OpenSound(disk, Batch);
      forall req ensures Roomy(req) {
        assert cache.Fits(Touched(State(), req), Inserts(req));
      }
    }

    /** Indexes the path behind every metadata key of a disk, in any order. */
    static method RebuildIndex(tree: Index.BTreeIndex, disk: Store)
      requires tree.Valid() && tree.Paths() == []
      modifies tree
      ensures tree.Valid() && Elements(tree.Paths()) == PathsIn(disk)
    {
      hide Index.SortedInsert;
      var todo := disk.Keys;
      ghost var seen: set<string> := {};
      while todo != {}
        invariant tree.Valid() && todo + seen == disk.Keys && Elements(tree.Paths()) == PathsOf(seen)
        decreases todo
      {
        var k :| k in todo;
        if |k| >= 2 && k[..2] == "m:" {
          ElementsInsert(tree.Paths(), k[2..]);
          var ok := tree.InsertPath(k[2..]);
        }
        seen := seen + {k};
        todo := todo - {k};
      }
    }

    /** The path index of an engine with secrets is at most as high as the base-3 logarithm of their number. */
    lemma IndexHeight()
      requires Parts() && index.Paths() != []
      ensures |index.Paths()| >= 2 * Arithmetic.Pow(3, index.height) - 1
    {
      hide Cache.ShardedCuckooTable.Valid, Cache.ShardedCuckooTable.SizedFor;
      index.HeightBound();
    }

    /** However many secrets are stored, at most 266240 keys are cached. */
    lemma CacheBound()
      requires Valid()
      ensures |State().cache.Keys| <= 266240
    {
      hide Cache.ShardedCuckooTable.Valid, Cache.ShardedCuckooTable.SizedFor, Cache.ShardedCuckooTable.Map, Sound,
        Index.BTreeIndex.Valid;
      cache.HoldsAtMost();
      assert State().cache.Keys == cache.Map().Keys;
    }

    /** However many keys route to a shard, at most 4160 of them are cached. */
    lemma CachePerShard(shard: nat) returns (held: set<string>)
      requires Valid() && shard < Cache.NUM_SHARDS
      ensures |held| <= 4160
      ensures forall k :: k in held <==> k in State().cache && Cache.ShardIndex(cache.hashes, k) == shard
    {
      hide Cache.ShardedCuckooTable.Valid, Cache.ShardedCuckooTable.SizedFor, Cache.ShardedCuckooTable.Map, Sound,
        Index.BTreeIndex.Valid, Cache.ShardIndex;
      cache.ShardHoldsAtMost(shard);
      held := set k | k in cache.Map() && Cache.ShardIndex(cache.hashes, k) == shard;
    }

    // -------------------------------------------------------------------------
    // The layers

    method CacheInsert(key: string, value: Value) returns (ghost lost: set<string>)
      requires Parts()
      modifies cache.Repr
      ensures Parts() && State() == KvModel.CacheInsert(old(State()), key, value, lost)
      ensures CacheAllows(old(State()).cache, key, lost)
      ensures Cache.Spared(old(Tables()), Tables(), cache.hashes, key, lost)
    {
      hide Cache.Spared, Cache.ShardedCuckooTable.Valid, Cache.ShardedCuckooTable.SizedFor,
        Cache.ShardedCuckooTable.Map, Index.BTreeIndex.Valid, Index.BTreeIndex.Paths, CuckooTheorems.MapInsert,
        Elements;
      ghost var before := cache.Map();
      cache.ShardInRepr(key);
      var ok;
      ghost var evicted, gone;
      ok, evicted, gone := cache.Insert(key, encode(value));
      lost := evicted + gone;
      InsertDrops(before, cache.Map(), key, encode(value), ok, evicted, gone);
      DecodedInsert(before, key, encode(value), lost, decode);
    }

    method CacheRemove(key: string)
      requires Parts()
      modifies cache.Repr
      ensures Parts() && State() == old(State()).(cache := old(State()).cache - {key})
      ensures Cache.Removed(old(Tables()), Tables(), cache.hashes, key)
    {
      hide Cache.Removed, Cache.ShardedCuckooTable.Valid, Cache.ShardedCuckooTable.SizedFor,
        Cache.ShardedCuckooTable.Map, Index.BTreeIndex.Valid, Index.BTreeIndex.Paths, Elements;
      ghost var before := cache.Map();
      cache.ShardInRepr(key);
      var ok := cache.Remove(key);
    }

    /**
     Cache first, then disk, refilling the cache on a disk hit.  The answer is the key's logical value
     exactly when the key is cached or the disk has caught up with it.
     */
    method ReadRawOptimistic(key: string) returns (v: Option<Value>, ghost lost: set<string>)
      requires Parts()
      modifies cache.Repr
      ensures Parts() && (State(), v) == ReadRaw(old(State()), key, lost)
      ensures CacheAllows(old(State()).cache, key, lost)
      ensures Cache.Spared(old(Tables()), Tables(), cache.hashes, key, lost)
      ensures ReadRight(old(State()), key, lost, State(), v)
    {
      hide Cache.ShardedCuckooTable.Ready, Cache.ShardedCuckooTable.Tables, Cache.ShardedCuckooTable.SizedFor,
        Cache.View, Cache.ShardsOk, Index.BTreeIndex.Valid, Index.BTreeIndex.Paths, Elements, Cache.Spared,
        Cache.ShardsUseUp, ReadRight;
      ghost var s, before := State(), Tables();
      lost := {};
      cache.ShardInRepr(key);
      var hit := cache.Lookup(key);
      ghost var mid := Tables();
      v := None;
      if hit.Some? {
        v := Some(decode(hit.value));
      } else if key in disk {
        v := Some(disk[key]);
        lost := CacheInsert(key, disk[key]);
      }
      ReadSpares(before, mid, Tables(), cache.hashes, key, lost, hit.None? && key in disk);
      ReadAnswers(s, key, lost);
    }

    /** Sends a write to disk or to the queue; false means the queue is full and nothing changed. */
    method EnqueueOrExecute(op: WriteOp) returns (ok: bool)
      requires Parts()
      modifies this`disk, this`queue, this`log
      ensures Parts() && Tables() == old(Tables())
      ensures ok <==> mode.Immediate? || |old(queue)| < QUEUE_CAPACITY
      ensures Write(old(State()), op) == if ok then Some(State()) else None
      ensures !ok ==> State() == old(State())
      ensures ok && ModeOk(old(State())) ==> Logical(State()) == ApplyOp(Logical(old(State())), op)
    {
      hide Cache.ShardedCuckooTable.Valid, Cache.ShardedCuckooTable.SizedFor, Cache.ShardedCuckooTable.Map,
        Index.BTreeIndex.Valid, Index.BTreeIndex.Paths, Elements, Logical;
      ghost var s := State();
      if mode.Immediate? {
        match op
        case Put(k, v) => disk := disk[k := v];
        case Delete(k) => disk := disk - {k};
      } else {
        if |queue| >= QUEUE_CAPACITY {
          return false;
        }
        queue := queue + [op];
      }
      log := log + [op];
      ok := true;
      if ModeOk(s) { WriteLogical(s, op); }
    }

    /** Cache and its validity are read off `Parts`; a cache at rest drops nothing. */
    lemma AtRest(key: string)
      requires Parts()
      ensures cache.Valid() && {this, index} + cache.Repr <= Repr && this !in cache.Repr && index !in cache.Repr
      ensures Cache.Spared(Tables(), Tables(), cache.hashes, key, {})
    {
      hide Cache.ShardsOk, Cache.Spared;
      NoInsertSpares(Tables(), cache.hashes, key);
    }

    method WriteMetadata(path: string, m: KeyMetadata) returns (r: Response, ghost lost: set<string>)
      requires Parts()
      modifies this`disk, this`queue, this`log, cache.Repr
      ensures Parts() && (State(), r) == StoreMeta(old(State()), path, m, lost)
      ensures CacheAllows(old(State()).cache, MetaKey(path), lost)
      ensures Cache.Spared(old(Tables()), Tables(), cache.hashes, MetaKey(path), lost)
    {
      hide Parts, State, Tables, MetaKey, Cache.Spared;
      AtRest(MetaKey(path));
      lost := {};
      var ok := EnqueueOrExecute(Put(MetaKey(path), MetaValue(m)));
      if !ok {
        return Failed(QueueFull), lost;
      }
      lost := CacheInsert(MetaKey(path), MetaValue(m));
      r := Done;
    }

    // -------------------------------------------------------------------------
    // Requests

    method ReadMetadata(path: string, now: nat) returns (r: Response, ghost env: Env)
      requires Valid()
      modifies cache.Repr
      ensures Valid() && env == Env(now, env.lostRead, {}, {})
      ensures (State(), r) == DoReadMetadata(old(State()), path, env.lostRead)
      ensures Cache.Spared(old(Tables()), Tables(), cache.hashes, MetaKey(path), env.lostRead)
      ensures Served(old(State()), Request.ReadMetadata(path), env, State(), r)
      ensures old(Roomy(Request.ReadMetadata(path))) ==>
                Undisturbed(old(State()), Request.ReadMetadata(path), env, State(), r)
    {
      hide Parts, State, Tables, Sound, Served, MetaKey, Cache.Spared, Cache.FitsIn, Undisturbed, Touched;
      ghost var s, req, before := State(), Request.ReadMetadata(path), Tables();
      var v;
      ghost var lost;
      v, lost := ReadRawOptimistic(MetaKey(path));
      r := MetaResponse(v);
      env := Env(now, lost, {}, {});
      ServedStep(s, req, env);
      if old(Roomy(req)) {
        TouchedKeys(s, req, {});
        Cache.SparedFits(before, Tables(), cache.hashes, MetaKey(path), lost, Touched(s, req), 0);
        QuietServed(s, req, env, State(), r);
      }
    }

    method ReadVersion(path: string, version: nat, now: nat) returns (r: Response, ghost env: Env)
      requires Valid()
      modifies cache.Repr
      ensures Valid() && env.now == now
      ensures Served(old(State()), Request.ReadVersion(path, version), env, State(), r)
      ensures old(Roomy(Request.ReadVersion(path, version))) ==>
                Undisturbed(old(State()), Request.ReadVersion(path, version), env, State(), r)
    {
      hide Parts, State, Tables, Sound, MetaKey, VersionKey, Readable, Good, Kept, Refines, Direct, Cache.Spared,
        Cache.FitsIn, Undisturbed, Touched, Served, Possible, ReadRight;
      ghost var s, req, H := State(), Request.ReadVersion(path, version), cache.hashes;
      ghost var roomy, keys, before := Roomy(req), Touched(s, req), Tables();
      r, env := ReadMetadata(path, now);
      TouchedKeys(s, req, env.lostRead);
      ghost var mid := Tables();
      if roomy { Cache.SparedFits(before, mid, H, MetaKey(path), env.lostRead, keys, 1); }
      ReadPossible(s, req, env, State(), r);
      if r.Metadata? {
        var access := CheckAccess(r.meta, version);
        if access.Denied? {
          r := Failed(access.error);
        } else {
          var v;
          ghost var lost;
          v, lost := ReadRawOptimistic(VersionKey(path, access.state.id));
          if roomy { Cache.SparedFits(mid, Tables(), H, VersionKey(path, access.state.id), lost, keys, 0); }
          r := PayloadResponse(v, access.state);
          env := env.(lostFirst := lost);
          VersionPossible(s, path, version, env);
        }
      }
      ServedStep(s, req, env);
      if roomy { QuietServed(s, req, env, State(), r); }
    }

    method PutVersion(path: string, payload: Payload, cas: Option<nat>, now: nat) returns (r: Response, ghost env: Env)
      requires Valid()
      modifies this`disk, this`queue, this`log, cache.Repr, index
      ensures Valid() && env.now == now
      ensures Served(old(State()), Request.PutVersion(path, payload, cas), env, State(), r)
      ensures old(Roomy(Request.PutVersion(path, payload, cas))) ==>
                Undisturbed(old(State()), Request.PutVersion(path, payload, cas), env, State(), r)
    {
      hide Parts, State, Tables, Sound, MetaKey, VersionKey, Good, Kept, Refines, Direct, Write, StoreMeta,
        KvModel.CacheInsert, DoReadMetadata, Logical, Possible, Cache.Spared, Cache.FitsIn, Undisturbed, Touched,
        Served, CacheAllows;
      ghost var s, req, H := State(), Request.PutVersion(path, payload, cas), cache.hashes;
      ghost var roomy, keys, t0 := Roomy(req), Touched(s, req), Tables();
      r, env := ReadMetadata(path, now);
      TouchedKeys(s, req, env.lostRead);
      ghost var t1 := Tables();
      if roomy { Cache.SparedFits(t0, t1, H, MetaKey(path), env.lostRead, keys, 2); }
      ReadPossible(s, req, env, State(), r);
      if r.Failed? && r.error != NotFound {
        ServedStep(s, req, env);
        if roomy { QuietServed(s, req, env, State(), r); }
        return;
      }
      var m := if r.Failed? then DEFAULT_METADATA else r.meta;
      if cas.Some? && m.current != cas.value {
        r := Failed(CasMismatch(cas.value, m.current));
        ServedStep(s, req, env);
        if roomy { QuietServed(s, req, env, State(), r); }
        return;
      }
      var id := m.current + 1;
      m := m.(current := id, versions := m.versions + [VersionState(now, 0, id, false)]);
      var ok;
      ghost var first, second;
      ok, first := WritePayload(VersionKey(path, id), payload);
      if !ok {
        r := Failed(QueueFull);
        ServedStep(s, req, env);
        if roomy { QuietServed(s, req, env, State(), r); }
        return;
      }
      ghost var t2 := Tables();
      if roomy { Cache.SparedFits(t1, t2, H, VersionKey(path, id), first, keys, 1); }
      r, second := WriteMetadata(path, m);
      if roomy { Cache.SparedFits(t2, Tables(), H, MetaKey(path), second, keys, 0); }
      env := env.(lostFirst := first, lostSecond := second);
      PutPossible(s, path, payload, cas, env);
      if r.Done? {
        IndexPath(path);
      }
      ServedStep(s, req, env);
      if roomy { QuietServed(s, req, env, State(), r); }
    }

    /** Writes a payload and caches it. */
    method WritePayload(key: string, payload: Payload) returns (ok: bool, ghost lost: set<string>)
      requires Parts()
      modifies this`disk, this`queue, this`log, cache.Repr
      ensures Parts() && CacheAllows(old(State()).cache, key, lost)
      ensures Cache.Spared(old(Tables()), Tables(), cache.hashes, key, lost)
      ensures var w := Write(old(State()), Put(key, PayloadValue(payload)));
              && (ok <==> w.Some?)
              && State() == if ok then KvModel.CacheInsert(w.value, key, PayloadValue(payload), lost) else old(State())
    {
      hide Parts, State, Tables, Cache.Spared;
      AtRest(key);
      lost := {};
      ok := EnqueueOrExecute(Put(key, PayloadValue(payload)));
      if ok {
        lost := CacheInsert(key, PayloadValue(payload));
      }
    }

    /** Adds a path to the index unless it is there. */
    method IndexPath(path: string)
      requires Parts()
      modifies index
      ensures Parts() && State() == old(State()).(index := old(State()).index + {path})
    {
      hide Cache.ShardedCuckooTable.Valid, Cache.ShardedCuckooTable.SizedFor, Cache.ShardedCuckooTable.Map,
        Index.BTreeIndex.Valid, Index.SortedInsert;
      ElementsInsert(index.Paths(), path);
      var ok := index.InsertPath(path);
    }

    /** Soft delete and undelete. */
    method ChangeMetadata(req: Request, now: nat) returns (r: Response, ghost env: Env)
      requires Valid() && (req.SoftDelete? || req.Undelete?)
      modifies this`disk, this`queue, this`log, cache.Repr
      ensures Valid() && env == Env(now, env.lostRead, {}, env.lostSecond)
      ensures Served(old(State()), req, env, State(), r)
      ensures old(Roomy(req)) ==> Undisturbed(old(State()), req, env, State(), r)
    {
      hide Parts, State, Tables, Sound, MetaKey, Good, Kept, Refines, Direct, StoreMeta, DoReadMetadata, Logical,
        ChangeVersion, Cache.Spared, Cache.FitsIn, Undisturbed, Touched;
      ghost var s, H := State(), cache.hashes;
      ghost var roomy, keys, before := Roomy(req), Touched(s, req), Tables();
      r, env := ReadMetadata(req.path, now);
      TouchedKeys(s, req, env.lostRead);
      ghost var mid := Tables();
      if roomy { Cache.SparedFits(before, mid, H, MetaKey(req.path), env.lostRead, keys, 1); }
      if r.Metadata? {
        var change := MarkVersion(r.meta, req, now);
        if change.Refused? {
          r := Failed(change.error);
        } else {
          ghost var lost;
          r, lost := WriteMetadata(req.path, change.meta);
          if roomy { Cache.SparedFits(mid, Tables(), H, MetaKey(req.path), lost, keys, 0); }
          env := env.(lostSecond := lost);
        }
      }
      ServedStep(s, req, env);
      if roomy { QuietServed(s, req, env, State(), r); }
    }

    method DestroyVersion(path: string, version: nat, now: nat) returns (r: Response, ghost env: Env)
      requires Valid()
      modifies this`disk, this`queue, this`log, cache.Repr
      ensures Valid() && env == Env(now, env.lostRead, {}, env.lostSecond)
      ensures Served(old(State()), Request.DestroyVersion(path, version), env, State(), r)
      ensures old(Roomy(Request.DestroyVersion(path, version))) ==>
                Undisturbed(old(State()), Request.DestroyVersion(path, version), env, State(), r)
    {
      hide Parts, State, Tables, Sound, MetaKey, VersionKey, Good, Kept, Refines, Direct, Write, StoreMeta,
        DoReadMetadata, Logical, ChangeVersion, Cache.Spared, Cache.FitsIn, Undisturbed, Touched, Cache.Removed;
      ghost var s, req, H := State(), Request.DestroyVersion(path, version), cache.hashes;
      ghost var roomy, keys, t0 := Roomy(req), Touched(s, req), Tables();
      r, env := ReadMetadata(path, now);
      TouchedKeys(s, req, env.lostRead);
      OnlyMetaTouched(s, req, version);
      ghost var t1 := Tables();
      if roomy { Cache.SparedFits(t0, t1, H, MetaKey(path), env.lostRead, keys, 1); }
      if r.Failed? {
        ServedStep(s, req, env);
        if roomy { QuietServed(s, req, env, State(), r); }
        return;
      }
      var change := MarkVersion(r.meta, Request.DestroyVersion(path, version), now);
      if change.Refused? {
        r := Failed(change.error);
        ServedStep(s, req, env);
        if roomy { QuietServed(s, req, env, State(), r); }
        return;
      }
      var vkey := VersionKey(path, version);
      ghost var s1 := State();
      var ok := EnqueueOrExecute(Delete(vkey));
      if !ok {
        r := Failed(QueueFull);
        ServedStep(s, req, env);
        if roomy { QuietServed(s, req, env, State(), r); }
        return;
      }
      WriteFields(s1, Delete(vkey));
      CacheRemove(vkey);
      ghost var t2 := Tables();
      if roomy { Cache.RemovedFits(t1, t2, H, vkey, keys, 1); }
      ghost var lost;
      r, lost := WriteMetadata(path, change.meta);
      if roomy { Cache.SparedFits(t2, Tables(), H, MetaKey(path), lost, keys, 0); }
      env := env.(lostSecond := lost);
      ServedStep(s, req, env);
      if roomy { QuietServed(s, req, env, State(), r); }
    }

    /**
     Switches the sync mode, whatever is under way.  The engine stays valid exactly when the new mode
     is Batch or nothing is queued or batched.
     */
    method ChangeSyncMode(m: SyncMode)
      requires Valid()
      modifies this`mode
      ensures Parts() && State() == old(State()).(mode := m)
      ensures Valid() <==> m.Batch? || (queue == [] && batch == [])
    {
      hide Cache.ShardedCuckooTable.Valid, Cache.ShardedCuckooTable.SizedFor, Cache.ShardedCuckooTable.Map,
        Index.BTreeIndex.Valid, Index.BTreeIndex.Paths, Elements, Sound;
      ghost var s := State();
      mode := m;
      SwitchSound(s, m);
    }

    // -------------------------------------------------------------------------
    // The worker

    /** Takes the oldest queued write, if any, into the batch. */
    method TakeOne() returns (taken: bool)
      requires Parts()
      modifies this`queue, this`batch
      ensures Parts() && State() == Dequeue(old(State()))
      ensures taken <==> old(queue) != []
    {
      hide Cache.ShardedCuckooTable.Valid, Cache.ShardedCuckooTable.SizedFor, Cache.ShardedCuckooTable.Map,
        Index.BTreeIndex.Valid, Index.BTreeIndex.Paths, Elements;
      taken := queue != [];
      if taken {
        batch := batch + [queue[0]];
        queue := queue[1..];
      }
    }

    method ApplyBatch()
      requires Parts()
      modifies this`disk, this`batch
      ensures Parts() && State() == Flush(old(State()))
    {
      hide Cache.ShardedCuckooTable.Valid, Cache.ShardedCuckooTable.SizedFor, Cache.ShardedCuckooTable.Map,
        Index.BTreeIndex.Valid, Index.BTreeIndex.Paths, Elements, ApplyAll;
      disk := ApplyAll(disk, batch);
      batch := [];
    }

    /**
     The worker thread: turns while it runs, then the shutdown drain.  Nothing is left under way, and
     the disk holds the fold of every write since open.
     */
    method AsyncWorkerLoop(ticks: seq<bool>)
      requires Valid()
      modifies this`disk, this`queue, this`batch
      ensures Valid() && State() == Shutdown(Turns(old(State()), ticks))
      ensures queue == [] && batch == [] && disk == Logical(old(State())) == ApplyAll(base, log)
      ensures State().cache == old(State()).cache && State().index == old(State()).index
    {
      hide Cache.ShardedCuckooTable.Valid, Cache.ShardedCuckooTable.SizedFor, Cache.ShardedCuckooTable.Map,
        Index.BTreeIndex.Valid, Index.BTreeIndex.Paths, Elements, Sound, Logical, ApplyAll;
      ghost var start := State();
      for i := 0 to |ticks|
        invariant Parts() && State() == Turns(start, ticks[..i])
      {
        assert ticks[..i + 1][..i] == ticks[..i];
        var taken := TakeOne();
        if |batch| >= MAX_BATCH || (ticks[i] && batch != []) {
          ApplyBatch();
        }
      }
      assert ticks[..|ticks|] == ticks;
      ghost var before := State();
      while queue != []
        invariant Parts() && batch + queue == before.batch + before.queue
        invariant State() == before.(batch := batch, queue := queue)
        decreases |queue|
      {
        var taken := TakeOne();
      }
      assert batch + queue == batch;
      if batch != [] {
        ApplyBatch();
      }
      TurnsSound(start, ticks);
      DrainSound(before);
    }
  }

  /** Any number of turns keep the engine sound and its logical store. */
  lemma {:induction false} TurnsSound(s: Engine, ticks: seq<bool>)
    requires Sound(s)
    ensures var t := Turns(s, ticks);
            Sound(t) && Logical(t) == Logical(s) && t == s.(queue := t.queue, batch := t.batch, disk := t.disk)
    decreases |ticks|
  {
    hide Logged, Indexed, Logical, WorkerTurn, ModeOk;
    if ticks != [] {
      var rest, last := ticks[..|ticks| - 1], ticks[|ticks| - 1];
      TurnsSound(s, rest);
      var t := Turns(s, rest);
      TurnLogical(t, last);
      TurnLogged(t, last);
      TurnIndexed(t, last);
    }
  }

  lemma {:induction false} TurnsQueue(s: Engine, ticks: seq<bool>)
    ensures var t := Turns(s, ticks);
            |t.queue| == (if |ticks| <= |s.queue| then |s.queue| - |ticks| else 0) && Logical(t) == Logical(s)
    decreases |ticks|
  {
    hide Logical;
    if ticks != [] {
      var before := Turns(s, ticks[..|ticks| - 1]);
      TurnsQueue(s, ticks[..|ticks| - 1]);
      TurnLogical(before, ticks[|ticks| - 1]);
    }
  }

  /** As many turns as writes are queued, the last past the flush interval, bring the disk up to date. */
  lemma TurnsCatchUp(s: Engine, ticks: seq<bool>)
    requires |s.queue| <= |ticks| && ticks != [] && ticks[|ticks| - 1]
    ensures var t := Turns(s, ticks); t.queue == [] && t.batch == [] && t.disk == Logical(s)
  {
    hide ApplyAll;
    TurnsQueue(s, ticks);
    var t := Turns(s, ticks);
    assert Pending(t) == [];
    ApplyNone(t.disk);
  }

  lemma {:induction false} TurnsGood(s: Engine, ticks: seq<bool>)
    requires Good(s)
    ensures var t := Turns(s, ticks); Good(t) && Logical(t) == Logical(s)
    decreases |ticks|
  {
    hide Good, Logical, WorkerTurn;
    if ticks != [] {
      TurnsGood(s, ticks[..|ticks| - 1]);
      TurnKeeps(Turns(s, ticks[..|ticks| - 1]), ticks[|ticks| - 1]);
    }
  }

  /**
   Worker turns between the two reads of a version read do not change its answer, if the cache shows
   every write under way: the payload is found where it was, or where the turns have moved it.
   */
  lemma TurnsBetweenReads(s: Engine, path: string, version: nat, env: Env, ticks: seq<bool>)
    requires Good(s) && env.lostRead !! PendingKeys(s)
    ensures var (s1, r) := DoReadMetadata(s, path, env.lostRead);
            r.Metadata? && Readable(r.meta, version).Granted? ==>
              var state := Readable(r.meta, version).state;
              var v := ReadRaw(Turns(s1, ticks), VersionKey(path, state.id), env.lostFirst).1;
              PayloadResponse(v, state) == RefStep(Logical(s), ReadVersion(path, version), env.now).1
  {
    hide Logical, MetaKey, VersionKey, Readable, Turns, Shaped, Dead, CoherentExcept, Live, PathsIn, KeysOf;
    ReadMetaRight(s, path, env.lostRead);
    var (s1, r) := DoReadMetadata(s, path, env.lostRead);
    TurnsGood(s1, ticks);
    if r.Metadata? && Readable(r.meta, version).Granted? {
      GrantedIsLive(Logical(s), path, version);
      var id := Readable(r.meta, version).state.id;
      LiveNotDead(Logical(s), path, id);
      ReadCoherent(Turns(s1, ticks), VersionKey(path, id), {});
    }
  }

  /** The drain keeps the engine sound and brings every write to disk. */
  lemma DrainSound(s: Engine)
    requires Sound(s)
    ensures var s' := Shutdown(s);
            && Sound(s') && s'.disk == Logical(s) == ApplyAll(s.base, s.log)
            && s' == s.(queue := [], batch := [], disk := s'.disk)
  {
    hide ApplyAll, PathsIn, IsMetaKey;
    ShutdownDrains(s);
    LogicalIsFold(s);
    var s' := Shutdown(s);
    assert Pending(s') == [] && s'.log[..|s'.log|] == s'.log && s'.log[|s'.log|..] == [];
    ApplyNone(s'.disk);
  }

  lemma ReadPossible(s: Engine, req: Request, env: Env, s1: Engine, r: Response)
    requires env.lostFirst == {} && env.lostSecond == {} && Served(s, Request.ReadMetadata(req.path), env, s1, r)
    ensures Possible(s, req, env) && CacheAllows(s.cache, MetaKey(req.path), env.lostRead)
  {
    hide MetaKey, VersionKey, DoReadMetadata, Readable, Good, Refines, Direct, RefStep;
  }

  lemma VersionPossible(s: Engine, path: string, version: nat, env: Env)
    requires CacheAllows(s.cache, MetaKey(path), env.lostRead)
    requires var (s1, r) := DoReadMetadata(s, path, env.lostRead);
             && r.Metadata? && Readable(r.meta, version).Granted?
             && CacheAllows(s1.cache, VersionKey(path, Readable(r.meta, version).state.id), env.lostFirst)
    ensures Possible(s, ReadVersion(path, version), env)
  {
    hide MetaKey, VersionKey, DoReadMetadata, CacheAllows, Readable;
  }

  lemma PutPossible(s: Engine, path: string, payload: Payload, cas: Option<nat>, env: Env)
    requires CacheAllows(s.cache, MetaKey(path), env.lostRead)
    requires var (s1, r) := DoReadMetadata(s, path, env.lostRead);
             var k := VersionKey(path, (if r.Metadata? then r.meta.current else 0) + 1);
             var w := Write(s1, Put(k, PayloadValue(payload)));
             && CacheAllows(s1.cache, k, env.lostFirst) && w.Some?
             && CacheAllows(CacheInsert(w.value, k, PayloadValue(payload), env.lostFirst).cache, MetaKey(path), env.lostSecond)
    ensures Possible(s, PutVersion(path, payload, cas), env)
  {
    hide MetaKey, VersionKey, DoReadMetadata, CacheAllows;
  }

  /** A switch of mode keeps the engine sound exactly when it does not strand writes under way. */
  lemma SwitchSound(s: Engine, m: SyncMode)
    requires Sound(s)
    ensures Sound(s.(mode := m)) <==> m.Batch? || (s.queue == [] && s.batch == [])
  {
    hide ApplyAll, PathsIn;
    var t := s.(mode := m);
    assert Pending(t) == Pending(s) && Logical(t) == Logical(s);
    assert Pending(s) == [] <==> s.queue == [] && s.batch == [] by {
      if Pending(s) == [] { assert |Pending(s)| == |s.batch| + |s.queue|; }
    }
  }

  lemma OpenSound(disk: Store, mode: SyncMode)
    ensures Sound(Open(disk, mode))
  {
    hide ApplyAll, PathsIn, Logged;
    NothingLogged(Open(disk, mode));
    ApplyNone(disk);
    NoPaths();
    assert Pending(Open(disk, mode)) == [];
  }
}
