/** Crash consistency: every prefix of the operation log, and any number of crashes and reopens. */
module KvCrash {
  import opened Options
  import opened Maps
  import opened KvModel
  import opened KvTheorems
  import opened KvRuns
  import opened KvLifecycle

  /** A crash after `n` writes falls between the delete and the metadata of a version's destroy. */
  predicate Splits(log: seq<WriteOp>, n: nat, path: string, version: nat) {
    && 1 <= n < |log| && log[n - 1] == Delete(VersionKey(path, version))
    && log[n].Put? && log[n].key == MetaKey(path)
  }

  /** A crash after `n` writes leaves numbered versions and no gap but the old ones and a split destroy's. */
  ghost predicate CutOk(base: Store, log: seq<WriteOp>, n: nat, gaps: set<(string, nat)>)
    requires n <= |log|
  {
    var st := ApplyAll(base, log[..n]);
    && Shaped(st)
    && forall path: string, version: nat :: Gap(st, path, version) ==> (path, version) in gaps || Splits(log, n, path, version)
  }

  /** No cut is ahead of the whole log in any path's version counter. */
  ghost predicate Behind(base: Store, log: seq<WriteOp>, n: nat)
    requires n <= |log|
  {
    forall path: string :: Cur(ApplyAll(base, log[..n]), path) <= Cur(ApplyAll(base, log), path)
  }

  ghost predicate CutsOk(base: Store, log: seq<WriteOp>, gaps: set<(string, nat)>) {
    forall n: nat :: n <= |log| ==> CutOk(base, log, n, gaps) && Behind(base, log, n)
  }

  /** Extending the log leaves the old cuts as they were. */
  lemma OldCuts(base: Store, log: seq<WriteOp>, log': seq<WriteOp>, n: nat, gaps: set<(string, nat)>)
    requires CutsOk(base, log, gaps) && log <= log' && n < |log|
    requires forall path: string :: Cur(ApplyAll(base, log), path) <= Cur(ApplyAll(base, log'), path)
    ensures CutOk(base, log', n, gaps) && Behind(base, log', n)
  {
    hide ApplyAll, Shaped, Cur, Gap;
    assert CutOk(base, log, n, gaps) && Behind(base, log, n);
    assert log'[..n] == log[..n];
  }

  /** A cut at which the store is complete but for the old gaps. */
  lemma WholeCut(base: Store, log: seq<WriteOp>, n: nat, st: Store, gaps: set<(string, nat)>)
    requires n <= |log| && st == ApplyAll(base, log[..n]) && Shaped(st) && Complete(st, gaps)
    ensures CutOk(base, log, n, gaps)
  {
    hide ApplyAll, Shaped, Gap;
  }

  /** Nothing is split at the end of the log. */
  lemma LastCut(base: Store, log: seq<WriteOp>, gaps: set<(string, nat)>)
    requires CutsOk(base, log, gaps)
    ensures Complete(ApplyAll(base, log), gaps)
  {
    hide ApplyAll, Shaped, Gap;
    assert CutOk(base, log, |log|, gaps);
    assert log[..|log|] == log;
  }

  lemma CurAfterPayload(st: Store, op: WriteOp, p: string, v: nat, path: string)
    requires op.key == VersionKey(p, v)
    ensures Cur(ApplyOp(st, op), path) == Cur(st, path)
  {
    KeysDisjoint(path, p, v);
  }

  /** The cut between the two writes of a put or a destroy. */
  lemma MiddleCut(s: Engine, req: Request, env: Env, ops: seq<WriteOp>, log: seq<WriteOp>, gaps: set<(string, nat)>)
    requires Good(s) && Logged(s) && Complete(Logical(s), gaps) && |ops| == 2 && log == s.log + ops
    requires WritesOf(req, RefMeta(Logical(s), req.path), env, Done, ops)
    ensures CutOk(s.base, log, |s.log| + 1, gaps)
    ensures forall path: string :: Cur(ApplyAll(s.base, log[..|s.log| + 1]), path) == Cur(Logical(s), path)
  {
    hide ApplyAll, Shaped, PathsIn, CoherentExcept, Dead, ChangeVersion, WithNewVersion, Cur, Gap, Live, ApplyOp;
    var L := Logical(s);
    LogicalIsFold(s);
    var n := |s.log| + 1;
    assert log[..n] == s.log + [ops[0]];
    ApplySnoc(s.base, s.log, ops[0]);
    assert log[n - 1] == ops[0] && log[n] == ops[1];
    var v := if req.PutVersion? then Cur1(RefMeta(L, req.path)) + 1 else req.version;
    assert ops[0].key == VersionKey(req.path, v);
    PayloadWrite(L, ops[0], req.path, v);
    PayloadGaps(L, ops[0], req.path, v, gaps);
    if !req.PutVersion? {
      assert Splits(log, n, req.path, v);
    }
    forall path: string ensures Cur(ApplyOp(L, ops[0]), path) == Cur(L, path) { CurAfterPayload(L, ops[0], req.path, v, path); }
  }

  /** What a request leaves of completeness, whether it was accepted or turned away. */
  lemma StepComplete(s: Engine, req: Request, env: Env, gaps: set<(string, nat)>)
    requires Good(s) && Kept(s, req, env) && Complete(Logical(s), gaps)
    ensures var s' := Step(s, req, env).0;
            && Complete(Logical(s'), gaps)
            && forall path: string :: Cur(Logical(s), path) <= Cur(Logical(s'), path)
  {
    hide ApplyAll, Shaped, PathsIn, CoherentExcept, Step, RefStep, Cur, Logical, Same, Complete, KeysOf;
    var (s', r) := Step(s, req, env);
    StepRefines(s, req, env);
    if r == Failed(QueueFull) {
      SameShape(Logical(s), Logical(s'), gaps);
      forall path: string ensures Cur(Logical(s), path) == Cur(Logical(s'), path) {
        SameCur(Logical(s), Logical(s'), path);
      }
    } else {
      RefStepOk(Logical(s), req, env.now, gaps);
      forall path: string ensures Cur(Logical(s), path) <= Cur(Logical(s'), path) {
        RefCur(Logical(s), req, env.now, path);
      }
    }
  }

  lemma AtMostTwo(req: Request, read: Response, env: Env, answer: Response, ops: seq<WriteOp>)
    requires WritesOf(req, read, env, answer, ops)
    ensures |ops| <= 2
    ensures |ops| == 2 ==> WritesOf(req, read, env, Done, ops)
  {
  }

  lemma StepCuts(s: Engine, req: Request, env: Env, gaps: set<(string, nat)>)
    requires Good(s) && Kept(s, req, env) && Logged(s) && CutsOk(s.base, s.log, gaps)
    ensures var s' := Step(s, req, env).0; CutsOk(s'.base, s'.log, gaps)
  {
    hide ApplyAll, Shaped, PathsIn, CoherentExcept, Step, RefStep, Cur, WritesOf, CutOk, Logical, Same, KeysOf,
      Complete, Logged;
    var (s', r) := Step(s, req, env);
    var L, L' := Logical(s), Logical(s');
    StepRefines(s, req, env);
    StepLogged(s, req, env);
    LogicalIsFold(s);
    LogicalIsFold(s');
    LastCut(s.base, s.log, gaps);
    ReadMetaRight(s, req.path, env.lostRead);
    var ops := StepWrote(s, req, env);
    StepComplete(s, req, env, gaps);
    AtMostTwo(req, RefMeta(L, req.path), env, r, ops);
    assert s'.log == s.log + ops && s'.base == s.base;
    forall n: nat | n <= |s'.log| ensures CutOk(s.base, s'.log, n, gaps) && Behind(s.base, s'.log, n) {
      if n < |s.log| {
        OldCuts(s.base, s.log, s'.log, n, gaps);
      } else if n == |s'.log| {
        assert s'.log[..n] == s'.log;
        WholeCut(s.base, s'.log, n, L', gaps);
      } else if n == |s.log| {
        assert s'.log[..n] == s.log;
        WholeCut(s.base, s'.log, n, L, gaps);
      } else {
        MiddleCut(s, req, env, ops, s'.log, gaps);
      }
    }
  }

  /**
   After any run that keeps its writes visible, and at every point where a crash may cut the log,
   each path's metadata lists versions 1..n and every live version has its payload, except for the
   gaps the run started with and the one version whose destroy the cut splits.  The disk is such a
   cut, and no cut is ahead of the logical store in any version counter.
   */
  lemma {:induction false} CrashConsistent(s: Engine, events: seq<Event>, gaps: set<(string, nat)>)
    requires Good(s) && AllKept(s, events) && Logged(s) && CutsOk(s.base, s.log, gaps)
    ensures var s' := Run(s, events).0;
            && Good(s') && Logged(s') && CutsOk(s'.base, s'.log, gaps)
            && exists n: nat :: n <= |s'.log| && s'.disk == ApplyAll(s'.base, s'.log[..n]) && CutOk(s'.base, s'.log, n, gaps)
    decreases |events|
  {
    hide Good, Step, WorkerTurn, Kept, CutOk, Behind, Logical, ApplyAll;
    if events == [] {
      var n: nat := |s.log| - |Pending(s)|;
      assert CutOk(s.base, s.log, n, gaps);
    } else {
      match events[0]
      case Turn(timeout) =>
        TurnKeeps(s, timeout);
        TurnLogged(s, timeout);
        CrashConsistent(WorkerTurn(s, timeout), events[1..], gaps);
      case Call(req, env) =>
        StepRefines(s, req, env);
        GoodShape(s);
        StepLogged(s, req, env);
        StepCuts(s, req, env, gaps);
        CrashConsistent(Step(s, req, env).0, events[1..], gaps);
    }
  }

  /** A freshly opened engine meets everything the run theorems ask of a start. */
  lemma OpenStarts(disk: Store, mode: SyncMode, gaps: set<(string, nat)>)
    requires Shaped(disk) && Complete(disk, gaps)
    ensures var s := Open(disk, mode);
            Good(s) && Logged(s) && CutsOk(s.base, s.log, gaps) && Logical(s) == disk
  {
    hide Shaped, Complete, Logged;
    OpenGood(disk, mode);
    NothingLogged(Open(disk, mode));
    ApplyNone(disk);
    var s := Open(disk, mode);
    assert s.log[..0] == s.log;
    WholeCut(disk, s.log, 0, disk, gaps);
  }

  // ---------------------------------------------------------------------------
  // How far the disk may be behind

  /** The queue never overflows, and a batch is applied before it has 1024 writes. */
  predicate Bounded(s: Engine) {
    |s.queue| <= 262144 && |s.batch| < 1024
  }

  lemma StoreMetaBounded(s: Engine, path: string, m: KeyMetadata, lost: set<string>)
    requires Bounded(s)
    ensures Bounded(StoreMeta(s, path, m, lost).0)
  {
  }

  lemma StepBounded(s: Engine, req: Request, env: Env)
    requires Bounded(s)
    ensures Bounded(Step(s, req, env).0)
  {
    hide MetaKey, VersionKey, WithNewVersion, ChangeVersion, StoreMeta, Readable, ApplyOp;
    var (s1, r) := DoReadMetadata(s, req.path, env.lostRead);
    if req.PutVersion? {
      var m := if r.Failed? then DEFAULT_METADATA else r.meta;
      var op := Put(VersionKey(req.path, m.current + 1), PayloadValue(req.payload));
      var w := Write(s1, op);
      if w.Some? {
        StoreMetaBounded(CacheInsert(w.value, op.key, op.value, env.lostFirst), req.path, WithNewVersion(m, env.now), env.lostSecond);
      }
    } else if r.Metadata? && !req.ReadMetadata? && !req.ReadVersion? && ChangeVersion(r.meta, req, env.now).Changed? {
      var m := ChangeVersion(r.meta, req, env.now).meta;
      StoreMetaBounded(s1, req.path, m, env.lostSecond);
      var vkey := VersionKey(req.path, req.version);
      var w := Write(s1, Delete(vkey));
      if w.Some? { StoreMetaBounded(w.value.(cache := w.value.cache - {vkey}), req.path, m, env.lostSecond); }
    }
  }

  lemma {:induction false} RunBounded(s: Engine, events: seq<Event>)
    requires Bounded(s)
    ensures Bounded(Run(s, events).0)
    decreases |events|
  {
    hide Step;
    if events != [] {
      match events[0]
      case Turn(timeout) => RunBounded(WorkerTurn(s, timeout), events[1..]);
      case Call(req, env) =>
        StepBounded(s, req, env);
        RunBounded(Step(s, req, env).0, events[1..]);
    }
  }

  /** In every run the disk holds all but the last 263167 writes at most: that much a crash can lose. */
  lemma BoundedLoss(disk: Store, mode: SyncMode, events: seq<Event>)
    ensures var s := Run(Open(disk, mode), events).0;
            exists n: nat :: n <= |s.log| <= n + 263167 && s.disk == ApplyAll(disk, s.log[..n])
  {
    hide Run, ApplyAll, Logical, Shutdown;
    RunBounded(Open(disk, mode), events);
    LogicalIsFoldOfWrites(disk, mode, events);
    var s := Run(Open(disk, mode), events).0;
    var n: nat := |s.log| - |Pending(s)|;
    assert s.disk == ApplyAll(disk, s.log[..n]);
  }

  // ---------------------------------------------------------------------------
  // Numbering, whatever the cache drops

  /** A write to metadata stores numbered metadata. */
  predicate OpOk(op: WriteOp) {
    IsMetaKey(op.key) ==> op.Put? && op.value.MetaValue? && Numbered(op.value.meta)
  }

  predicate OpsOk(ops: seq<WriteOp>) {
    forall i :: 0 <= i < |ops| ==> OpOk(ops[i])
  }

  lemma ShapedOp(st: Store, op: WriteOp)
    requires Shaped(st) && OpOk(op)
    ensures Shaped(ApplyOp(st, op))
  {
    forall path: string ensures MetaOk(ApplyOp(st, op), path) {
      assert MetaOk(st, path);
      MetaKeyPath(path);
    }
  }

  lemma ShapedLess(st: Store, lost: set<string>)
    requires Shaped(st)
    ensures Shaped(st - lost)
  {
    forall path: string ensures MetaOk(st - lost, path) {
      assert MetaOk(st, path);
    }
  }

  lemma {:induction false} ShapedAll(st: Store, ops: seq<WriteOp>)
    requires Shaped(st) && OpsOk(ops)
    ensures Shaped(ApplyAll(st, ops))
    decreases |ops|
  {
    hide Shaped, OpOk;
    if ops != [] {
      ShapedAll(st, ops[..|ops| - 1]);
      ShapedOp(ApplyAll(st, ops[..|ops| - 1]), ops[|ops| - 1]);
    }
  }

  /** An insert into the cache, as a write. */
  lemma ShapedInsert(s: Engine, op: WriteOp, lost: set<string>)
    requires Shaped(s.cache) && op.Put? && OpOk(op)
    ensures Shaped(CacheInsert(s, op.key, op.value, lost).cache)
  {
    hide Shaped, OpOk;
    ShapedOp(s.cache, op);
    ShapedLess(ApplyOp(s.cache, op), lost);
  }

  lemma ReadShaped(s: Engine, path: string, lost: set<string>)
    requires Shaped(s.cache) && Shaped(s.disk)
    ensures var (s1, r) := DoReadMetadata(s, path, lost); Shaped(s1.cache) && (r.Metadata? ==> Numbered(r.meta))
  {
    var k := MetaKey(path);
    assert MetaOk(s.cache, path) && MetaOk(s.disk, path);
    if k !in s.cache && k in s.disk { ShapedInsert(s, Put(k, s.disk[k]), lost); }
  }

  lemma PayloadReadShaped(s: Engine, path: string, v: nat, lost: set<string>)
    requires Shaped(s.cache)
    ensures Shaped(ReadRaw(s, VersionKey(path, v), lost).0.cache)
  {
    hide Shaped, VersionKey;
    var k := VersionKey(path, v);
    VersionKeyPath(path, v);
    if k !in s.cache && k in s.disk { ShapedInsert(s, Put(k, s.disk[k]), lost); }
  }

  lemma StoreMetaShaped(s: Engine, path: string, m: KeyMetadata, lost: set<string>)
    requires Shaped(s.cache) && Numbered(m)
    ensures Shaped(StoreMeta(s, path, m, lost).0.cache)
  {
    hide Shaped, MetaKey, Numbered;
    var op := Put(MetaKey(path), MetaValue(m));
    var w := Write(s, op);
    if w.Some? { ShapedInsert(w.value, op, lost); }
  }

  lemma NewVersionNumbered(m: KeyMetadata, now: nat)
    requires Numbered(m)
    ensures Numbered(WithNewVersion(m, now))
  {
  }

  /** What a request leaves in the cache is numbered if cache and disk were. */
  lemma StepShapesCache(s: Engine, req: Request, env: Env)
    requires Shaped(s.cache) && Shaped(s.disk)
    ensures Shaped(Step(s, req, env).0.cache)
  {
    hide Shaped, MetaKey, VersionKey, Numbered, WithNewVersion, ChangeVersion, StoreMeta, DoReadMetadata, Write,
      Readable;
    ReadShaped(s, req.path, env.lostRead);
    var (s1, r) := DoReadMetadata(s, req.path, env.lostRead);
    if req.PutVersion? {
      PutShapesCache(s1, req.path, req.payload, if r.Failed? then DEFAULT_METADATA else r.meta, env);
    } else if req.ReadVersion? && r.Metadata? && Readable(r.meta, req.version).Granted? {
      PayloadReadShaped(s1, req.path, Readable(r.meta, req.version).state.id, env.lostFirst);
    } else if r.Metadata? && !req.ReadMetadata? && !req.ReadVersion? {
      ChangeShapesCache(s1, req, r.meta, env);
    }
  }

  lemma PutShapesCache(s: Engine, path: string, payload: Payload, m: KeyMetadata, env: Env)
    requires Shaped(s.cache) && (m == DEFAULT_METADATA || Numbered(m))
    ensures var op := Put(VersionKey(path, m.current + 1), PayloadValue(payload));
            var w := Write(s, op);
            w.Some? ==>
              Shaped(StoreMeta(CacheInsert(w.value, op.key, op.value, env.lostFirst), path, WithNewVersion(m, env.now), env.lostSecond).0.cache)
  {
    hide Shaped, MetaKey, VersionKey, WithNewVersion, StoreMeta, Write;
    var op := Put(VersionKey(path, m.current + 1), PayloadValue(payload));
    VersionKeyPath(path, m.current + 1);
    NewVersionNumbered(m, env.now);
    var w := Write(s, op);
    if w.Some? {
      WriteFields(s, op);
      ShapedInsert(w.value, op, env.lostFirst);
      StoreMetaShaped(CacheInsert(w.value, op.key, op.value, env.lostFirst), path, WithNewVersion(m, env.now), env.lostSecond);
    }
  }

  lemma ChangeShapesCache(s: Engine, req: Request, m: KeyMetadata, env: Env)
    requires Shaped(s.cache) && Numbered(m) && (req.SoftDelete? || req.Undelete? || req.DestroyVersion?)
    ensures var change := ChangeVersion(m, req, env.now);
            change.Changed? ==>
              && Shaped(StoreMeta(s, req.path, change.meta, env.lostSecond).0.cache)
              && var vkey := VersionKey(req.path, req.version);
                 var w := Write(s, Delete(vkey));
                 w.Some? ==>
                   Shaped(StoreMeta(w.value.(cache := w.value.cache - {vkey}), req.path, change.meta, env.lostSecond).0.cache)
  {
    hide Shaped, MetaKey, VersionKey, StoreMeta, Write, ChangeVersion;
    var change := ChangeVersion(m, req, env.now);
    if change.Changed? {
      ChangeExtends(m, req, env.now);
      StoreMetaShaped(s, req.path, change.meta, env.lostSecond);
      var vkey := VersionKey(req.path, req.version);
      var w := Write(s, Delete(vkey));
      if w.Some? {
        WriteFields(s, Delete(vkey));
        ShapedLess(s.cache, {vkey});
        StoreMetaShaped(w.value.(cache := w.value.cache - {vkey}), req.path, change.meta, env.lostSecond);
      }
    }
  }

  /** What a request writes is numbered if the metadata it read was. */
  lemma WritesNumbered(req: Request, read: Response, env: Env, answer: Response, ops: seq<WriteOp>)
    requires WritesOf(req, read, env, answer, ops) && (read.Metadata? ==> Numbered(read.meta))
    ensures OpsOk(ops)
  {
    hide MetaKey, VersionKey, IsMetaKey, ChangeVersion, WithNewVersion;
    if ops != [] {
      if req.PutVersion? {
        var m := if read.Metadata? then read.meta else DEFAULT_METADATA;
        VersionKeyPath(req.path, m.current + 1);
        NewVersionNumbered(m, env.now);
      } else {
        VersionKeyPath(req.path, req.version);
        ChangeExtends(read.meta, req, env.now);
      }
    }
  }

  /** Cache, base and every write so far are numbered. */
  ghost predicate AllNumbered(s: Engine) {
    ModeOk(s) && Logged(s) && Shaped(s.cache) && Shaped(s.base) && OpsOk(s.log)
  }

  lemma NumberedCut(s: Engine, n: nat)
    requires Shaped(s.base) && OpsOk(s.log) && n <= |s.log|
    ensures Shaped(ApplyAll(s.base, s.log[..n]))
  {
    hide Shaped, OpOk, ApplyAll;
    ShapedAll(s.base, s.log[..n]);
  }

  lemma StepNumbered(s: Engine, req: Request, env: Env)
    requires AllNumbered(s)
    ensures AllNumbered(Step(s, req, env).0)
  {
    hide Shaped, OpOk, ApplyAll, Step, WritesOf, ModeOk;
    NumberedCut(s, |s.log| - |Pending(s)|);
    StepLogged(s, req, env);
    StepShapesCache(s, req, env);
    ReadShaped(s, req.path, env.lostRead);
    var ops := StepWrote(s, req, env);
    WritesNumbered(req, DoReadMetadata(s, req.path, env.lostRead).1, env, Step(s, req, env).1, ops);
  }

  /**
   In every run, whatever the cache drops and however the queue splits a destroy: at every point
   where a crash may cut the log, each path's metadata lists versions 1..n.
   */
  lemma {:induction false} NumberedAlways(s: Engine, events: seq<Event>)
    requires AllNumbered(s)
    ensures var s' := Run(s, events).0;
            && AllNumbered(s') && s'.base == s.base && Shaped(Logical(s'))
            && forall n: nat :: n <= |s'.log| ==> Shaped(ApplyAll(s'.base, s'.log[..n]))
    decreases |events|
  {
    hide Shaped, OpsOk, ApplyAll, Step, WorkerTurn, ModeOk, Logged, Logical;
    if events == [] {
      forall n: nat | n <= |s.log| ensures Shaped(ApplyAll(s.base, s.log[..n])) { NumberedCut(s, n); }
      LogicalIsFold(s);
      ShapedAll(s.base, s.log);
    } else {
      match events[0]
      case Turn(timeout) =>
        TurnLogical(s, timeout);
        TurnLogged(s, timeout);
        NumberedAlways(WorkerTurn(s, timeout), events[1..]);
      case Call(req, env) =>
        StepNumbered(s, req, env);
        var ops := StepWrote(s, req, env);
        NumberedAlways(Step(s, req, env).0, events[1..]);
    }
  }

  lemma OpenNumbered(disk: Store, mode: SyncMode)
    requires Shaped(disk)
    ensures AllNumbered(Open(disk, mode))
  {
    NothingLogged(Open(disk, mode));
  }

  // ---------------------------------------------------------------------------
  // Any number of crashes

  /** An opening, a run, and a crash that keeps the first `cut` of its writes. */
  datatype Epoch = Epoch(mode: SyncMode, events: seq<Event>, cut: nat)

  function EpochLog(disk: Store, e: Epoch): seq<WriteOp> {
    Run(Open(disk, e.mode), e.events).0.log
  }

  /** Where the crash cuts the log; a cut past its end is a clean shutdown. */
  function CutPoint(log: seq<WriteOp>, e: Epoch): (n: nat)
    ensures n <= |log|
  {
    if e.cut < |log| then e.cut else |log|
  }

  function AfterCrash(disk: Store, e: Epoch): Store {
    var log := EpochLog(disk, e);
    ApplyAll(disk, log[..CutPoint(log, e)])
  }

  function Recovered(disk: Store, epochs: seq<Epoch>): Store
    decreases |epochs|
  {
    if epochs == [] then disk else Recovered(AfterCrash(disk, epochs[0]), epochs[1..])
  }

  predicate EpochsKept(disk: Store, epochs: seq<Epoch>)
    decreases |epochs|
  {
    epochs == []
    || (AllKept(Open(disk, epochs[0].mode), epochs[0].events) && EpochsKept(AfterCrash(disk, epochs[0]), epochs[1..]))
  }

  lemma SplitsUnique(log: seq<WriteOp>, n: nat, p: string, v: nat, q: string, w: nat)
    requires Splits(log, n, p, v) && Splits(log, n, q, w)
    ensures p == q && v == w
  {
    VersionKeyInjective(p, v, q, w);
  }

  /** One crash adds at most one gap. */
  lemma CrashGap(base: Store, log: seq<WriteOp>, n: nat, gaps: set<(string, nat)>) returns (more: set<(string, nat)>)
    requires n <= |log| && CutOk(base, log, n, gaps)
    ensures gaps <= more && |more| <= |gaps| + 1 && Complete(ApplyAll(base, log[..n]), more)
  {
    hide Shaped, ApplyAll, Gap, Splits;
    more := gaps;
    if p: string, v: nat :| Splits(log, n, p, v) {
      more := gaps + {(p, v)};
      forall q: string, w: nat | Splits(log, n, q, w) ensures (q, w) == (p, v) {
        SplitsUnique(log, n, p, v, q, w);
      }
    }
  }

  /**
   Through any number of openings, runs and crashes the disk keeps numbered versions, and each crash
   adds at most one gap: a destroy it split.  The next opening is again a start for all run theorems.
   */
  lemma {:induction false} CrashChain(disk: Store, epochs: seq<Epoch>, gaps: set<(string, nat)>) returns (more: set<(string, nat)>)
    requires Shaped(disk) && Complete(disk, gaps) && EpochsKept(disk, epochs)
    ensures var last := Recovered(disk, epochs);
            && Shaped(last) && Complete(last, more) && gaps <= more && |more| <= |gaps| + |epochs|
            && forall mode: SyncMode :: Good(Open(last, mode))
    decreases |epochs|
  {
    hide Shaped, Complete, AllKept, Good, Logged, CutOk, Logical, Behind, ApplyAll;
    if epochs == [] {
      more := gaps;
      forall mode: SyncMode ensures Good(Open(disk, mode)) { OpenGood(disk, mode); }
    } else {
      var e := epochs[0];
      var s := Open(disk, e.mode);
      OpenStarts(disk, e.mode, gaps);
      CrashConsistent(s, e.events, gaps);
      RunBase(s, e.events);
      var log := EpochLog(disk, e);
      var n := CutPoint(log, e);
      assert CutOk(disk, log, n, gaps);
      CutShaped(disk, log, n, gaps);
      var some := CrashGap(disk, log, n, gaps);
      more := CrashChain(AfterCrash(disk, e), epochs[1..], some);
    }
  }

  /** The numbering survives any number of crashes, whatever the runs between them met. */
  lemma {:induction false} RecoveredNumbered(disk: Store, epochs: seq<Epoch>)
    requires Shaped(disk)
    ensures Shaped(Recovered(disk, epochs))
    decreases |epochs|
  {
    hide Shaped, AllNumbered, ApplyAll, Run, Logical;
    if epochs != [] {
      var e := epochs[0];
      OpenNumbered(disk, e.mode);
      NumberedAlways(Open(disk, e.mode), e.events);
      RecoveredNumbered(AfterCrash(disk, e), epochs[1..]);
    }
  }

  lemma CutShaped(base: Store, log: seq<WriteOp>, n: nat, gaps: set<(string, nat)>)
    requires n <= |log| && CutOk(base, log, n, gaps)
    ensures Shaped(ApplyAll(base, log[..n]))
  {
  }

  lemma RunBase(s: Engine, events: seq<Event>)
    requires ModeOk(s) && Logged(s)
    ensures Run(s, events).0.base == s.base
  {
    hide Logged, Logical, ApplyAll;
    RunLogged(s, events);
  }
}
