/**
 The versioned key-value engine on values: the write path (cache, queue, worker batch, disk), the
 version lifecycle, and the cacheless engine it is measured against.

 What the engine cannot determine comes in as an `Env`: the clock, and which keys the cuckoo cache
 dropped at each insert.  The theorems hold whatever is dropped; `Possible` bounds the drops, and the
 engine class proves the bound of the cache it runs on.
 */
module KvModel {
  import opened Options
  import opened Maps
  import Text = TimeFormat

  datatype VersionState = VersionState(createdMs: nat, deletionMs: nat, id: nat, destroyed: bool)

  datatype KeyMetadata = KeyMetadata(
    current: nat, maxVersions: nat, casRequired: bool, deleteAfterMs: nat, versions: seq<VersionState>)

  const DEFAULT_METADATA := KeyMetadata(0, 0, false, 0, [])

  datatype Payload = Payload(value: string, ttl: nat)

  /** What the codecs store: they are invertible, so a stored value is what was serialised. */
  datatype Value = MetaValue(meta: KeyMetadata) | PayloadValue(payload: Payload)

  type Store = map<string, Value>

  datatype WriteOp = Put(key: string, value: Value) | Delete(key: string)

  datatype Error =
    | NotFound
    | InvalidVersion(version: nat)
    | Destroyed
    | SoftDeleted
    | CasMismatch(expected: nat, actual: nat)
    | QueueFull
    | StorageError

  datatype Response =
    | Done
    | Metadata(meta: KeyMetadata)
    | Data(payload: Payload, state: VersionState)
    | Failed(error: Error)

  datatype Request =
    | ReadMetadata(path: string)
    | ReadVersion(path: string, version: nat)
    | PutVersion(path: string, payload: Payload, cas: Option<nat>)
    | SoftDelete(path: string, version: nat)
    | Undelete(path: string, version: nat)
    | DestroyVersion(path: string, version: nat)

  // ---------------------------------------------------------------------------
  // Keys

  function MetaKey(path: string): string {
    "m:" + path
  }

  function VersionKey(path: string, version: nat): string {
    "v:" + path + ":" + Text.Decimal(version)
  }

  /** The two kinds of key never meet. */
  lemma KeysDisjoint(p: string, q: string, v: nat)
    ensures MetaKey(p) != VersionKey(q, v)
  {
    assert MetaKey(p)[0] == 'm' && VersionKey(q, v)[0] == 'v';
  }

  lemma MetaKeyInjective(p: string, q: string)
    requires MetaKey(p) == MetaKey(q)
    ensures p == q
  {
    assert MetaKey(p)[2..] == p && MetaKey(q)[2..] == q;
  }

  lemma VersionKeyParts(p: string, v: nat)
    ensures var k, d := VersionKey(p, v), |Text.Decimal(v)|;
            && |k| == 3 + |p| + d && k[2..2 + |p|] == p && k[|k| - d - 1] == ':'
            && k[|k| - d..] == Text.Decimal(v) && forall i :: |k| - d <= i < |k| ==> k[i] != ':'
  {
  }

  /** A path may contain colons and digits; the version is still determined by the key. */
  lemma VersionKeyInjective(p: string, v: nat, q: string, w: nat)
    requires VersionKey(p, v) == VersionKey(q, w)
    ensures p == q && v == w
  {
    VersionKeyParts(p, v);
    VersionKeyParts(q, w);
    var d, e := |Text.Decimal(v)|, |Text.Decimal(w)|;
    assert d == e;
    Text.NumDecimal(v);
    Text.NumDecimal(w);
  }

  // ---------------------------------------------------------------------------
  // Stores

  function ApplyOp(st: Store, op: WriteOp): Store {
    match op
    case Put(k, v) => st[k := v]
    case Delete(k) => st - {k}
  }

  /** The effect of a batch, in order. */
  function ApplyAll(st: Store, ops: seq<WriteOp>): Store {
    if ops == [] then st else ApplyOp(ApplyAll(st, ops[..|ops| - 1]), ops[|ops| - 1])
  }

  function KeysOf(ops: seq<WriteOp>): set<string> {
    set i | 0 <= i < |ops| :: ops[i].key
  }

  /** The paths whose metadata a store holds: what `open` rebuilds the path index from. */
  function PathsIn(st: Store): set<string> {
    set k | k in st && |k| >= 2 && k[..2] == "m:" :: k[2..]
  }

  // ---------------------------------------------------------------------------
  // The version lifecycle on metadata

  /** First position holding a version id. */
  function Find(vs: seq<VersionState>, id: nat, i: nat): (r: Option<nat>)
    requires i <= |vs|
    ensures r.Some? ==> i <= r.value < |vs| && vs[r.value].id == id
    ensures r.None? ==> forall j :: i <= j < |vs| ==> vs[j].id != id
    decreases |vs| - i
  {
    if i == |vs| then None else if vs[i].id == id then Some(i) else Find(vs, id, i + 1)
  }

  function WithNewVersion(m: KeyMetadata, now: nat): KeyMetadata {
    m.(current := m.current + 1, versions := m.versions + [VersionState(now, 0, m.current + 1, false)])
  }

  /** Metadata after a delete, undelete or destroy, or the error it answers. */
  datatype Change = Changed(meta: KeyMetadata) | Refused(error: Error)

  function ChangeVersion(m: KeyMetadata, req: Request, now: nat): Change
    requires req.SoftDelete? || req.Undelete? || req.DestroyVersion?
  {
    match Find(m.versions, req.version, 0)
    case None => Refused(InvalidVersion(req.version))
    case Some(i) =>
      var v := m.versions[i];
      if req.Undelete? && v.destroyed then Refused(Destroyed)
      else
        var v' := if req.SoftDelete? then v.(deletionMs := now)
                  else if req.Undelete? then v.(deletionMs := 0)
                  else v.(destroyed := true);
        Changed(m.(versions := m.versions[i := v']))
  }

  /** Which version a read is after, and whether it may be read. */
  datatype Access = Granted(state: VersionState) | Denied(error: Error)

  function Readable(m: KeyMetadata, version: nat): Access {
    var target := if version == 0 then m.current else version;
    match Find(m.versions, target, 0)
    case None => Denied(InvalidVersion(version))
    case Some(i) =>
      var v := m.versions[i];
      if target == 0 then Denied(InvalidVersion(version))
      else if v.destroyed then Denied(Destroyed)
      else if v.deletionMs > 0 then Denied(SoftDeleted)
      else Granted(VersionState(v.createdMs, v.deletionMs, target, v.destroyed))
  }

  // ---------------------------------------------------------------------------
  // The cacheless engine: one map, read and written directly

  function MetaResponse(v: Option<Value>): (r: Response)
    ensures r.Metadata? || r.Failed?
  {
    match v
    case Some(MetaValue(m)) => Metadata(m)
    case Some(_) => Failed(StorageError)
    case None => Failed(NotFound)
  }

  function PayloadResponse(v: Option<Value>, state: VersionState): Response {
    match v
    case Some(PayloadValue(p)) => Data(p, state)
    case _ => Failed(StorageError)
  }

  function RefMeta(st: Store, path: string): (r: Response)
    ensures r.Metadata? || r.Failed?
  {
    MetaResponse(Get(st, MetaKey(path)))
  }

  function RefStep(st: Store, req: Request, now: nat): (Store, Response) {
    var r := RefMeta(st, req.path);
    match req
    case ReadMetadata(path) => (st, r)
    case ReadVersion(path, version) =>
      if r.Failed? then (st, r)
      else
        var access := Readable(r.meta, version);
        if access.Denied? then (st, Failed(access.error))
        else (st, PayloadResponse(Get(st, VersionKey(path, access.state.id)), access.state))
    case PutVersion(path, payload, cas) =>
      if r.Failed? && r.error != NotFound then (st, r)
      else
        var m := if r.Failed? then DEFAULT_METADATA else r.meta;
        if cas.Some? && m.current != cas.value then (st, Failed(CasMismatch(cas.value, m.current)))
        else
          (st[VersionKey(path, m.current + 1) := PayloadValue(payload)][MetaKey(path) := MetaValue(WithNewVersion(m, now))],
           Done)
    case _ =>
      if r.Failed? then (st, r)
      else
        match ChangeVersion(r.meta, req, now)
        case Refused(e) => (st, Failed(e))
        case Changed(m) =>
          var st' := if req.DestroyVersion? then st - {VersionKey(req.path, req.version)} else st;
          (st'[MetaKey(req.path) := MetaValue(m)], Done)
  }

  // ---------------------------------------------------------------------------
  // The engine

  datatype SyncMode = Immediate | Batch

  /** `base` and `log` are history: the disk at open and every write since, in order. */
  datatype Engine = Engine(
    mode: SyncMode,
    cache: Store,
    queue: seq<WriteOp>,
    batch: seq<WriteOp>,
    disk: Store,
    index: set<string>,
    base: Store,
    log: seq<WriteOp>)

  datatype Env = Env(now: nat, lostRead: set<string>, lostFirst: set<string>, lostSecond: set<string>)

  /** The number of cells in the ring that holds the queue. */
  const QUEUE_CAPACITY: nat := 262144

  function Open(disk: Store, mode: SyncMode): Engine {
    Engine(mode, map[], [], [], disk, PathsIn(disk), disk, [])
  }

  function CacheInsert(s: Engine, k: string, v: Value, lost: set<string>): Engine {
    s.(cache := s.cache[k := v] - lost)
  }

  /** Cache first, then disk; a disk hit is brought into the cache. */
  function ReadRaw(s: Engine, k: string, lost: set<string>): (Engine, Option<Value>) {
    if k in s.cache then (s, Some(s.cache[k]))
    else if k in s.disk then (CacheInsert(s, k, s.disk[k], lost), Some(s.disk[k]))
    else (s, None)
  }

  /** A write goes to disk at once, or to the queue if it has room. */
  function Write(s: Engine, op: WriteOp): Option<Engine> {
    if s.mode.Immediate? then Some(s.(disk := ApplyOp(s.disk, op), log := s.log + [op]))
    else if |s.queue| >= QUEUE_CAPACITY then None
    else Some(s.(queue := s.queue + [op], log := s.log + [op]))
  }

  function DoReadMetadata(s: Engine, path: string, lost: set<string>): (r: (Engine, Response))
    ensures r.1.Metadata? || r.1.Failed?
  {
    var (s1, v) := ReadRaw(s, MetaKey(path), lost);
    (s1, MetaResponse(v))
  }

  function DoReadVersion(s: Engine, path: string, version: nat, env: Env): (Engine, Response) {
    var (s1, r) := DoReadMetadata(s, path, env.lostRead);
    if r.Failed? then (s1, r)
    else
      var access := Readable(r.meta, version);
      if access.Denied? then (s1, Failed(access.error))
      else
        var (s2, v) := ReadRaw(s1, VersionKey(path, access.state.id), env.lostFirst);
        (s2, PayloadResponse(v, access.state))
  }

  /** Writes new metadata through queue or disk, then caches it. */
  function StoreMeta(s: Engine, path: string, m: KeyMetadata, lost: set<string>): (Engine, Response) {
    match Write(s, Put(MetaKey(path), MetaValue(m)))
    case None => (s, Failed(QueueFull))
    case Some(s') => (CacheInsert(s', MetaKey(path), MetaValue(m), lost), Done)
  }

  function DoPutVersion(s: Engine, path: string, payload: Payload, cas: Option<nat>, env: Env): (Engine, Response) {
    var (s1, r) := DoReadMetadata(s, path, env.lostRead);
    if r.Failed? && r.error != NotFound then (s1, r)
    else
      var m := if r.Failed? then DEFAULT_METADATA else r.meta;
      if cas.Some? && m.current != cas.value then (s1, Failed(CasMismatch(cas.value, m.current)))
      else
        var vkey := VersionKey(path, m.current + 1);
        match Write(s1, Put(vkey, PayloadValue(payload)))
        case None => (s1, Failed(QueueFull))
        case Some(s2) =>
          var s3 := CacheInsert(s2, vkey, PayloadValue(payload), env.lostFirst);
          var (s4, done) := StoreMeta(s3, path, WithNewVersion(m, env.now), env.lostSecond);
          (if done.Done? then s4.(index := s4.index + {path}) else s4, done)
  }

  function DoChange(s: Engine, req: Request, env: Env): (Engine, Response)
    requires req.SoftDelete? || req.Undelete?
  {
    var (s1, r) := DoReadMetadata(s, req.path, env.lostRead);
    if r.Failed? then (s1, r)
    else
      match ChangeVersion(r.meta, req, env.now)
      case Refused(e) => (s1, Failed(e))
      case Changed(m) => StoreMeta(s1, req.path, m, env.lostSecond)
  }

  function DoDestroy(s: Engine, path: string, version: nat, env: Env): (Engine, Response) {
    var (s1, r) := DoReadMetadata(s, path, env.lostRead);
    if r.Failed? then (s1, r)
    else
      match ChangeVersion(r.meta, DestroyVersion(path, version), env.now)
      case Refused(e) => (s1, Failed(e))
      case Changed(m) =>
        var vkey := VersionKey(path, version);
        match Write(s1, Delete(vkey))
        case None => (s1, Failed(QueueFull))
        case Some(s2) => StoreMeta(s2.(cache := s2.cache - {vkey}), path, m, env.lostSecond)
  }

  function Step(s: Engine, req: Request, env: Env): (Engine, Response) {
    match req
    case ReadMetadata(path) => DoReadMetadata(s, path, env.lostRead)
    case ReadVersion(path, version) => DoReadVersion(s, path, version, env)
    case PutVersion(path, payload, cas) => DoPutVersion(s, path, payload, cas, env)
    case SoftDelete(_, _) => DoChange(s, req, env)
    case Undelete(_, _) => DoChange(s, req, env)
    case DestroyVersion(path, version) => DoDestroy(s, path, version, env)
  }

  // ---------------------------------------------------------------------------
  // A bound on what the cache drops

  /**
   An insert drops at most two keys, the CLOCK victim and the one a failed displacement loses, and
   none if its key is cached.
   */
  predicate CacheAllows(cache: Store, k: string, lost: set<string>) {
    lost <= cache.Keys + {k} && |lost| <= 2 && (k in cache ==> lost == {})
  }

  /** A bound on the drops that the inserts of one request cause. */
  predicate Possible(s: Engine, req: Request, env: Env) {
    var (s1, r) := DoReadMetadata(s, req.path, env.lostRead);
    && CacheAllows(s.cache, MetaKey(req.path), env.lostRead)
    && match req
       case ReadMetadata(_) => true
       case ReadVersion(path, version) =>
         r.Metadata? && Readable(r.meta, version).Granted? ==>
           CacheAllows(s1.cache, VersionKey(path, Readable(r.meta, version).state.id), env.lostFirst)
       case PutVersion(path, payload, _) =>
         var vkey := VersionKey(path, (if r.Metadata? then r.meta.current else 0) + 1);
         && CacheAllows(s1.cache, vkey, env.lostFirst)
         && CacheAllows(s1.cache[vkey := PayloadValue(payload)] - env.lostFirst, MetaKey(path), env.lostSecond)
       case DestroyVersion(path, version) =>
         CacheAllows(s1.cache - {VersionKey(path, version)}, MetaKey(path), env.lostSecond)
       case _ => CacheAllows(s1.cache, MetaKey(req.path), env.lostSecond)
  }

  /** The keys a request may insert. */
  function Touched(s: Engine, req: Request): seq<string> {
    var r := DoReadMetadata(s, req.path, {}).1;
    [MetaKey(req.path)] +
    match req
    case ReadVersion(path, version) =>
      if r.Metadata? && Readable(r.meta, version).Granted? then [VersionKey(path, Readable(r.meta, version).state.id)] else []
    case PutVersion(path, _, _) => [VersionKey(path, (if r.Metadata? then r.meta.current else 0) + 1)]
    case _ => []
  }

  /** How many inserts a request does at most: it refills what it reads and caches what it writes. */
  function Inserts(req: Request): nat {
    match req
    case ReadMetadata(_) => 1
    case PutVersion(_, _, _) => 3
    case _ => 2
  }

  // ---------------------------------------------------------------------------
  // The background worker

  const MAX_BATCH: nat := 1024

  /** The worker takes the oldest queued write into its batch. */
  function Dequeue(s: Engine): Engine {
    if s.queue == [] then s else s.(queue := s.queue[1..], batch := s.batch + [s.queue[0]])
  }

  /** The worker applies its whole batch. */
  function Flush(s: Engine): Engine {
    s.(disk := ApplyAll(s.disk, s.batch), batch := [])
  }

  /** One turn of the worker's loop: a dequeue, then a flush when the batch is big or old enough. */
  function WorkerTurn(s: Engine, timeout: bool): Engine {
    var s1 := Dequeue(s);
    if |s1.batch| >= MAX_BATCH || (timeout && s1.batch != []) then Flush(s1) else s1
  }

  /** Shutdown: everything queued joins the batch, and a non-empty batch is applied. */
  function Shutdown(s: Engine): Engine {
    var s1 := s.(batch := s.batch + s.queue, queue := []);
    if s1.batch == [] then s1 else Flush(s1)
  }
}
