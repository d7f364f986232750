/**
 Where the write-behind promise ends: exactly when an acknowledged write is visible, exactly when a
 full queue loses a payload, and exactly when a mode switch reorders writes.
 */
module KvLimits {
  import opened Options
  import opened Maps
  import opened KvModel
  import opened KvTheorems
  import opened KvRuns
  import opened KvLifecycle
  import opened KvCrash

  // ---------------------------------------------------------------------------
  // Acknowledged but not visible

  predicate IsWrite(req: Request) {
    req.PutVersion? || req.SoftDelete? || req.Undelete? || req.DestroyVersion?
  }

  lemma MetaDrop(s: Engine, path: string, m: KeyMetadata, lost: set<string>)
    ensures var (t, r) := StoreMeta(s, path, m, {});
            && r == StoreMeta(s, path, m, lost).1
            && (r.Done? ==> StoreMeta(s, path, m, lost).0 == t.(cache := t.cache - lost) && MetaKey(path) in t.cache)
  {
  }

  /** The metadata insert is a request's last effect: what it drops is missing from the cache, no more. */
  lemma LastDrop(s: Engine, req: Request, env: Env)
    requires IsWrite(req) && Step(s, req, env).1.Done?
    ensures var (t, r) := Step(s, req, env.(lostSecond := {}));
            && r.Done? && MetaKey(req.path) in t.cache
            && Step(s, req, env).0 == t.(cache := t.cache - env.lostSecond)
  {
    hide MetaKey, VersionKey, WithNewVersion, ApplyOp, DoReadMetadata, StoreMeta, Write, ChangeVersion;
    var (s1, r) := DoReadMetadata(s, req.path, env.lostRead);
    if req.PutVersion? {
      var m := if r.Failed? then DEFAULT_METADATA else r.meta;
      var vkey := VersionKey(req.path, m.current + 1);
      var w := Write(s1, Put(vkey, PayloadValue(req.payload)));
      var s3 := CacheInsert(w.value, vkey, PayloadValue(req.payload), env.lostFirst);
      MetaDrop(s3, req.path, WithNewVersion(m, env.now), env.lostSecond);
    } else {
      var m' := ChangeVersion(r.meta, req, env.now).meta;
      if req.DestroyVersion? {
        var vkey := VersionKey(req.path, req.version);
        var w := Write(s1, Delete(vkey)).value;
        MetaDrop(w.(cache := w.cache - {vkey}), req.path, m', env.lostSecond);
      } else {
        MetaDrop(s1, req.path, m', env.lostSecond);
      }
    }
  }

  /** The metadata of a good store determines what a metadata read answers, and is determined by it. */
  lemma MetaAnswers(st: Store, v: Option<Value>, path: string)
    requires Shaped(st) && MetaKey(path) in st
    ensures MetaResponse(v) == RefMeta(st, path) <==> v == Get(st, MetaKey(path))
  {
    assert MetaOk(st, path);
  }

  /**
   After an acknowledged put, delete, undelete or destroy the next metadata read shows it exactly when
   the request's last insert did not drop the metadata key or the disk holds the new metadata already.
   In Immediate mode the disk always does; in Batch mode it is the disk of before the request.
   */
  lemma AckVisibleIff(s: Engine, req: Request, env: Env, lost: set<string>)
    requires Good(s) && IsWrite(req) && Kept(s, req, env.(lostSecond := {})) && Step(s, req, env).1.Done?
    ensures var s' := Step(s, req, env).0;
            var mk := MetaKey(req.path);
            && Logical(s') == RefStep(Logical(s), req, env.now).0
            && (DoReadMetadata(s', req.path, lost).1 == RefMeta(Logical(s'), req.path) <==>
                mk !in env.lostSecond || Get(s'.disk, mk) == Get(Logical(s'), mk))
            && (s.mode.Batch? ==> s'.disk == s.disk)
  {
    hide ApplyAll, Shaped, PathsIn, MetaKey, RefStep, WritesOf, Step, KeysOf, Dead;
    var quiet := env.(lostSecond := {});
    var mk := MetaKey(req.path);
    LastDrop(s, req, env);
    var t := Step(s, req, quiet).0;
    var s' := Step(s, req, env).0;
    StepRefines(s, req, quiet);
    assert Pending(s') == Pending(t) && Logical(s') == Logical(t);
    ReadRightIff(s', mk, lost);
    assert mk in Logical(t);
    MetaAnswers(Logical(t), ReadRaw(s', mk, lost).1, req.path);
    var ops := StepWrote(s, req, env);
  }

  /** For a put in Batch mode the disk is never ahead, so the drop alone decides. */
  lemma PutVisibleIff(s: Engine, path: string, payload: Payload, cas: Option<nat>, env: Env, lost: set<string>, gaps: set<(string, nat)>)
    requires Good(s) && Logged(s) && CutsOk(s.base, s.log, gaps) && s.mode.Batch?
    requires Kept(s, PutVersion(path, payload, cas), env.(lostSecond := {}))
    requires Step(s, PutVersion(path, payload, cas), env).1.Done?
    ensures var s' := Step(s, PutVersion(path, payload, cas), env).0;
            && Cur(Logical(s'), path) == Cur(Logical(s), path) + 1
            && (DoReadMetadata(s', path, lost).1 == RefMeta(Logical(s'), path) <==> MetaKey(path) !in env.lostSecond)
  {
    hide ApplyAll, Shaped, PathsIn, MetaKey, RefStep, Step, Logical, DoReadMetadata, RefMeta, KeysOf, Kept, Logged;
    var req := PutVersion(path, payload, cas);
    var s' := Step(s, req, env).0;
    AckVisibleIff(s, req, env, lost);
    PutAnswered(s, req, env);
    RefCur(Logical(s), req, env.now, path);
    DiskBehind(s, path, gaps);
    if Get(s'.disk, MetaKey(path)) == Get(Logical(s'), MetaKey(path)) {
      assert false;
    }
  }

  lemma PutAnswered(s: Engine, req: Request, env: Env)
    requires Good(s) && IsWrite(req) && Kept(s, req, env.(lostSecond := {})) && Step(s, req, env).1.Done?
    ensures RefStep(Logical(s), req, env.now).1.Done?
  {
    hide Good, Logical, Step, RefStep, MetaKey;
    LastDrop(s, req, env);
    StepRefines(s, req, env.(lostSecond := {}));
  }

  /** The disk never runs ahead of the logical store. */
  lemma DiskBehind(s: Engine, path: string, gaps: set<(string, nat)>)
    requires Logged(s) && CutsOk(s.base, s.log, gaps)
    ensures Cur(s.disk, path) <= Cur(Logical(s), path)
  {
    hide ApplyAll, CutOk, Cur;
    LogicalIsFold(s);
    assert Behind(s.base, s.log, |s.log| - |Pending(s)|);
  }

  // ---------------------------------------------------------------------------
  // One stored version to start from

  /** Metadata after the first put, at time 1. */
  const FIRST := WithNewVersion(DEFAULT_METADATA, 1)

  const QUIET := Env(1, {}, {}, {})

  function OneVersion(path: string, p: Payload): Store {
    map[VersionKey(path, 1) := PayloadValue(p), MetaKey(path) := MetaValue(FIRST)]
  }

  lemma OneVersionOk(path: string, p: Payload)
    ensures StoreOk(OneVersion(path, p)) && Live(OneVersion(path, p), path, 1)
    ensures RefStep(OneVersion(path, p), ReadVersion(path, 1), 1) == (OneVersion(path, p), Data(p, VersionState(1, 0, 1, false)))
  {
    var st := OneVersion(path, p);
    KeysDisjoint(path, path, 1);
    forall q: string ensures MetaOk(st, q) && (MetaKey(q) in st ==> q == path) {
      KeysDisjoint(q, path, 1);
      if MetaKey(q) == MetaKey(path) { MetaKeyInjective(q, path); }
    }
    forall q: string, v: nat ensures !Gap(st, q, v) {}
  }

  /** A put to an empty engine and a clean shutdown leave one version on disk. */
  lemma StoreOne(path: string, p: Payload)
    ensures Shutdown(Step(Open(map[], Batch), PutVersion(path, p, None), QUIET).0).disk == OneVersion(path, p)
  {
    hide MetaKey, VersionKey, Shutdown, ApplyAll, PathsIn;
    KeysDisjoint(path, path, 1);
    var s := Step(Open(map[], Batch), PutVersion(path, p, None), QUIET).0;
    var a, b := Put(VersionKey(path, 1), PayloadValue(p)), Put(MetaKey(path), MetaValue(FIRST));
    assert s.queue == [a, b] && Pending(s) == [a, b];
    ShutdownDrains(s);
    ApplyPair(map[], a, b);
  }

  // ---------------------------------------------------------------------------
  // A full queue in the middle of a destroy

  /** The state and answer of a destroy that the queue splits. */
  lemma HalfDestroy(s: Engine, path: string, version: nat, env: Env)
    requires Good(s) && Undropped(s, DestroyVersion(path, version), env) && SplitsDestroy(s, DestroyVersion(path, version))
    ensures var (s', r) := Step(s, DestroyVersion(path, version), env);
            && r == Failed(QueueFull) && Logical(s') == Logical(s) - {VersionKey(path, version)}
            && s'.index == s.index && s'.mode == s.mode
  {
    hide ApplyAll, Shaped, PathsIn, CoherentExcept, Dead, KeysOf;
    var req := DestroyVersion(path, version);
    ReadMetaRight(s, path, env.lostRead);
    var (s1, r) := DoReadMetadata(s, path, env.lostRead);
    MetaOrDefaultOk(Logical(s), path);
    LiveChanges(r.meta, path, version, env.now);
    var vkey := VersionKey(path, version);
    WriteLogical(s1, Delete(vkey));
    var w := Write(s1, Delete(vkey)).value;
    var s2 := w.(cache := w.cache - {vkey});
    assert Pending(s2) == Pending(w) && Logical(s2) == Logical(w);
  }

  lemma LiveChanges(m: KeyMetadata, path: string, version: nat, now: nat)
    requires Numbered(m) && 1 <= version <= |m.versions|
    ensures ChangeVersion(m, DestroyVersion(path, version), now).Changed?
  {
    assert m.versions[version - 1].id == version;
  }

  /**
   Exactly when a request leaves a well-formed store well formed: unless it is the destroy of a live
   version with one free cell left in the queue.
   */
  lemma HalfDestroyExact(s: Engine, req: Request, env: Env)
    requires Good(s) && StoreOk(Logical(s)) && Undropped(s, req, env)
    ensures StoreOk(Logical(Step(s, req, env).0)) <==> !SplitsDestroy(s, req)
  {
    hide ApplyAll, Good, Shaped, Logical, Step, KeysOf, PathsIn;
    if SplitsDestroy(s, req) {
      HalfDestroy(s, req.path, req.version, env);
      GapOpens(Logical(s), req.path, req.version);
    } else {
      GoodShape(s);
      StepRefines(s, req, env);
      GoodShape(Step(s, req, env).0);
      StepComplete(s, req, env, {});
    }
  }

  /** Without its payload a live version is a gap. */
  lemma GapOpens(st: Store, path: string, version: nat)
    requires Live(st, path, version)
    ensures Gap(st - {VersionKey(path, version)}, path, version)
    ensures Get(st - {VersionKey(path, version)}, MetaKey(path)) == Get(st, MetaKey(path))
  {
    KeysDisjoint(path, path, version);
  }

  /**
   After such a destroy was turned away, a clean reopen still lists the version, and every read of it
   that was answered before reports a missing payload.
   */
  lemma HalfDestroyLosesPayload(s: Engine, path: string, version: nat, env: Env, mode: SyncMode, later: Env)
    requires Good(s) && Undropped(s, DestroyVersion(path, version), env) && SplitsDestroy(s, DestroyVersion(path, version))
    requires RefStep(Logical(s), ReadVersion(path, version), env.now).1.Data?
    ensures var (s', r) := Step(s, DestroyVersion(path, version), env);
            var t := Open(Shutdown(s').disk, mode);
            && r == Failed(QueueFull)
            && Step(t, ReadMetadata(path), later).1 == RefMeta(Logical(s), path)
            && Step(t, ReadVersion(path, version), later).1 == Failed(StorageError)
  {
    hide ApplyAll, Shaped, Logical, KeysOf, PathsIn, Shutdown, ApplyOp, MetaKey, VersionKey, CoherentExcept, ModeOk,
      Readable;
    var s' := Step(s, DestroyVersion(path, version), env).0;
    HalfDestroy(s, path, version, env);
    ShutdownDrains(s');
    var st := Logical(s) - {VersionKey(path, version)};
    GapOpens(Logical(s), path, version);
    ReadableId(RefMeta(Logical(s), path).meta, version);
  }

  lemma ReadableId(m: KeyMetadata, version: nat)
    requires version >= 1 && Readable(m, version).Granted?
    ensures Readable(m, version).state.id == version
  {
  }

  /** A run that fills the queue to any level: undeletes of one live version, and a worker that sleeps. */
  function Undeletes(path: string, n: nat): seq<Event>
    ensures |Undeletes(path, n)| == n
  {
    if n == 0 then [] else Undeletes(path, n - 1) + [Call(Undelete(path, 1), QUIET)]
  }

  lemma {:induction false} RunSnoc(s: Engine, events: seq<Event>, req: Request, env: Env)
    ensures Run(s, events + [Call(req, env)]).0 == Step(Run(s, events).0, req, env).0
    ensures AllKept(s, events) && Kept(Run(s, events).0, req, env) ==> AllKept(s, events + [Call(req, env)])
    decreases |events|
  {
    hide Step, WorkerTurn, Kept;
    var all := events + [Call(req, env)];
    if events == [] {
      assert all[1..] == [];
    } else {
      assert all[0] == events[0] && all[1..] == events[1..] + [Call(req, env)];
      match events[0]
      case Turn(timeout) => RunSnoc(WorkerTurn(s, timeout), events[1..], req, env);
      case Call(q, e) => RunSnoc(Step(s, q, e).0, events[1..], req, env);
    }
  }

  /**
   Such a run is kept throughout and reaches a good state with `n` writes queued that add up to the
   same one version, live and readable: one short of the capacity, the next destroy is split.
   */
  lemma {:induction false} QueueFills(path: string, p: Payload, n: nat)
    requires n <= 262144
    ensures var s0 := Open(OneVersion(path, p), Batch);
            var s := Run(s0, Undeletes(path, n)).0;
            && AllKept(s0, Undeletes(path, n)) && Good(s) && s.mode.Batch? && |s.queue| == n
            && Logical(s) == OneVersion(path, p)
            && (n + 1 == 262144 ==> SplitsDestroy(s, DestroyVersion(path, 1)))
    decreases n
  {
    hide Good, Logical, Step, Kept, AllKept, Live, StoreOk, Run, OneVersion, RefStep;
    var s0 := Open(OneVersion(path, p), Batch);
    OneVersionOk(path, p);
    if n == 0 {
      StartOfRun(s0);
      OpenStarts(OneVersion(path, p), Batch, {});
    } else {
      QueueFills(path, p, n - 1);
      var t := Run(s0, Undeletes(path, n - 1)).0;
      RunSnoc(s0, Undeletes(path, n - 1), Undelete(path, 1), QUIET);
      OneMoreUndelete(t, path, p);
    }
  }

  lemma StartOfRun(s: Engine)
    ensures Run(s, []).0 == s && AllKept(s, [])
  {
  }

  lemma OneMoreUndelete(s: Engine, path: string, p: Payload)
    requires Good(s) && Logical(s) == OneVersion(path, p) && s.mode.Batch? && |s.queue| < QUEUE_CAPACITY
    ensures var req := Undelete(path, 1);
            var (s', r) := Step(s, req, QUIET);
            && Kept(s, req, QUIET) && Good(s') && s'.mode.Batch? && |s'.queue| == |s.queue| + 1
            && r == Done && Logical(s') == OneVersion(path, p)
  {
    hide ApplyAll, Shaped, PathsIn, CoherentExcept, Step, KeysOf, Logical, RefStep, OneVersion;
    var req := Undelete(path, 1);
    StepRefines(s, req, QUIET);
    UndeleteQueues(s, path, p);
    UndeleteStays(path, p);
  }

  lemma UndeleteQueues(s: Engine, path: string, p: Payload)
    requires Good(s) && Logical(s) == OneVersion(path, p) && s.mode.Batch? && |s.queue| < QUEUE_CAPACITY
    ensures var (s', r) := Step(s, Undelete(path, 1), QUIET); r == Done && |s'.queue| == |s.queue| + 1
  {
    hide ApplyAll, Shaped, PathsIn, CoherentExcept, KeysOf, Logical, MetaKey, VersionKey;
    ReadMetaRight(s, path, {});
  }

  lemma UndeleteStays(path: string, p: Payload)
    ensures RefStep(OneVersion(path, p), Undelete(path, 1), 1) == (OneVersion(path, p), Done)
  {
    hide MetaKey, VersionKey;
    var st := OneVersion(path, p);
    assert ChangeVersion(FIRST, Undelete(path, 1), 1) == Changed(FIRST);
    assert st[MetaKey(path) := MetaValue(FIRST)] == st;
  }

  /**
   So a destroy that the queue splits is reached from an open: the version was readable, the destroy
   is turned away, and after a clean reopen the version is listed and its payload gone.
   */
  lemma HalfDestroyReached(path: string, p: Payload, mode: SyncMode, later: Env)
    ensures var s := Run(Open(OneVersion(path, p), Batch), Undeletes(path, QUEUE_CAPACITY - 1)).0;
            var (s', r) := Step(s, DestroyVersion(path, 1), QUIET);
            var t := Open(Shutdown(s').disk, mode);
            && Step(s, ReadVersion(path, 1), QUIET).1 == Data(p, VersionState(1, 0, 1, false))
            && r == Failed(QueueFull)
            && Step(t, ReadMetadata(path), later).1 == Metadata(FIRST)
            && Step(t, ReadVersion(path, 1), later).1 == Failed(StorageError)
  {
    hide ApplyAll, Good, Logical, Step, Run, AllKept, RefStep, Shutdown, PathsIn, Kept, SplitsDestroy;
    QueueFills(path, p, QUEUE_CAPACITY - 1);
    OneVersionOk(path, p);
    var s := Run(Open(OneVersion(path, p), Batch), Undeletes(path, QUEUE_CAPACITY - 1)).0;
    QuietKept(s, ReadVersion(path, 1));
    QuietKept(s, DestroyVersion(path, 1));
    ReadAnswered(s, path);
    HalfDestroyLosesPayload(s, path, 1, QUIET, mode, later);
    assert RefMeta(OneVersion(path, p), path) == Metadata(FIRST);
  }

  /** Where nothing is dropped, nothing under way is. */
  lemma QuietKept(s: Engine, req: Request)
    ensures Undropped(s, req, QUIET) && (!req.DestroyVersion? ==> Kept(s, req, QUIET))
  {
  }

  lemma ReadAnswered(s: Engine, path: string)
    requires Good(s) && Kept(s, ReadVersion(path, 1), QUIET)
    requires RefStep(Logical(s), ReadVersion(path, 1), 1).1 != Failed(QueueFull)
    ensures Step(s, ReadVersion(path, 1), QUIET).1 == RefStep(Logical(s), ReadVersion(path, 1), 1).1
  {
    hide Good, Logical, Kept, RefStep;
    StepRefines(s, ReadVersion(path, 1), QUIET);
  }

  // ---------------------------------------------------------------------------
  // Switching to Immediate with writes under way

  /**
   A direct write to disk takes effect in order exactly when no write to its key is under way, or the
   last one under way leaves the key as this one would.
   */
  lemma SwitchInOrderIff(s: Engine, op: WriteOp)
    ensures var now := Write(s.(mode := Immediate), op).value;
            Logical(now) == ApplyOp(Logical(s), op) <==>
            op.key !in PendingKeys(s) || Get(Logical(s), op.key) == (if op.Put? then Some(op.value) else None)
  {
    hide ApplyAll, KeysOf;
    var now := Write(s.(mode := Immediate), op).value;
    var ops := Pending(s);
    assert Pending(now) == ops;
    if op.key in KeysOf(ops) {
      Overwritten(s.disk, ApplyOp(s.disk, op), ops, op.key);
    } else {
      Untouched(ApplyOp(s.disk, op), ops, op.key);
    }
    forall k | k != op.key ensures Get(Logical(now), k) == Get(Logical(s), k) {
      AppliedAlike(s.disk, ApplyOp(s.disk, op), ops, k);
    }
    EqualIff(Logical(now), Logical(s), op);
  }

  lemma EqualIff(a: Store, b: Store, op: WriteOp)
    requires forall k :: k != op.key ==> Get(a, k) == Get(b, k)
    ensures a == ApplyOp(b, op) <==> Get(a, op.key) == (if op.Put? then Some(op.value) else None)
  {
    var c := ApplyOp(b, op);
    if Get(a, op.key) == (if op.Put? then Some(op.value) else None) {
      forall k ensures Get(a, k) == Get(c, k) { assert k != op.key ==> Get(a, k) == Get(b, k); }
      assert forall k :: k in a ==> Get(a, k) == Get(c, k);
      assert forall k :: k in c ==> Get(a, k) == Get(c, k);
    }
  }

  /** A key with a write in the batch ends up the same whatever it was before. */
  lemma {:induction false} Overwritten(a: Store, b: Store, ops: seq<WriteOp>, k: string)
    requires k in KeysOf(ops)
    ensures Get(ApplyAll(a, ops), k) == Get(ApplyAll(b, ops), k)
    decreases |ops|
  {
    var rest, last := ops[..|ops| - 1], ops[|ops| - 1];
    if last.key != k {
      var i :| 0 <= i < |ops| && ops[i].key == k;
      assert rest[i] == ops[i];
      Overwritten(a, b, rest, k);
    }
  }

  lemma {:induction false} AppliedAlike(a: Store, b: Store, ops: seq<WriteOp>, k: string)
    requires Get(a, k) == Get(b, k)
    ensures Get(ApplyAll(a, ops), k) == Get(ApplyAll(b, ops), k)
    decreases |ops|
  {
    if ops != [] { AppliedAlike(a, b, ops[..|ops| - 1], k); }
  }

  /**
   So a put after a switch loses its metadata to any put to the same path still under way: the
   logical store is not the one both puts in order would leave.
   */
  lemma ModeSwitchReorders(s: Engine, path: string, m: KeyMetadata)
    requires MetaKey(path) in PendingKeys(s) && Get(Logical(s), MetaKey(path)) != Some(MetaValue(m))
    ensures var op := Put(MetaKey(path), MetaValue(m));
            var now := Write(s.(mode := Immediate), op).value;
            && Get(now.disk, MetaKey(path)) == Some(MetaValue(m))
            && Get(Shutdown(now).disk, MetaKey(path)) == Get(Logical(s), MetaKey(path))
            && Shutdown(now).disk != ApplyOp(Logical(s), op)
  {
    hide ApplyAll, KeysOf, Shutdown;
    var op := Put(MetaKey(path), MetaValue(m));
    var now := Write(s.(mode := Immediate), op).value;
    SwitchInOrderIff(s, op);
    ShutdownDrains(now);
    assert Pending(now) == Pending(s);
    Overwritten(s.disk, now.disk, Pending(s), op.key);
  }
}
