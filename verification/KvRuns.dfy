/** Theorems over whole runs of the engine: requests, worker turns, shutdown, crash and reopen. */
module KvRuns {
  import opened Options
  import opened Maps
  import opened KvModel
  import opened KvTheorems

  // ---------------------------------------------------------------------------
  // The worker

  lemma DequeueKeeps(s: Engine)
    ensures Pending(Dequeue(s)) == Pending(s) && Logical(Dequeue(s)) == Logical(s)
  {
  }

  lemma FlushKeeps(s: Engine)
    ensures Logical(Flush(s)) == Logical(s)
    ensures Pending(Flush(s)) == s.queue && PendingKeys(Flush(s)) <= PendingKeys(s)
  {
    hide ApplyAll, KeysOf;
    assert Pending(Flush(s)) == s.queue;
    ApplyConcat(s.disk, s.batch, s.queue);
    KeysOfConcat(s.batch, s.queue);
  }

  /** A turn, whatever the cache holds: fewer writes under way, the same logical store. */
  lemma TurnLogical(s: Engine, timeout: bool)
    ensures var s' := WorkerTurn(s, timeout);
            && s' == s.(queue := s'.queue, batch := s'.batch, disk := s'.disk)
            && Logical(s') == Logical(s) && PendingKeys(s') <= PendingKeys(s)
            && (Pending(s') == Pending(s) || Pending(s') == Dequeue(s).queue)
            && (ModeOk(s) ==> ModeOk(s'))
  {
    hide ApplyAll, KeysOf;
    DequeueKeeps(s);
    FlushKeeps(Dequeue(s));
  }

  lemma FewerPending(s: Engine, s': Engine)
    requires Good(s) && s' == s.(queue := s'.queue, batch := s'.batch, disk := s'.disk)
    requires Logical(s') == Logical(s) && PendingKeys(s') <= PendingKeys(s) && ModeOk(s')
    ensures Good(s')
  {
    hide ApplyAll, KeysOf, Dead, Shaped, PathsIn;
  }

  /** A turn of the worker moves writes towards disk without changing the store they add up to. */
  lemma TurnKeeps(s: Engine, timeout: bool)
    requires Good(s)
    ensures var s' := WorkerTurn(s, timeout);
            && Good(s') && Logical(s') == Logical(s) && s'.mode == s.mode && s'.index == s.index
  {
    hide ApplyAll, Dead, KeysOf, PathsIn, CoherentExcept, Shaped, WorkerTurn, Logical;
    TurnLogical(s, timeout);
    FewerPending(s, WorkerTurn(s, timeout));
  }

  /** Shutdown leaves nothing under way: the disk is the logical store. */
  lemma ShutdownDrains(s: Engine)
    ensures var s' := Shutdown(s);
            Pending(s') == [] && s'.disk == Logical(s) && Logical(s') == Logical(s)
  {
  }

  /** A disk with numbered versions opens into a good engine, in either mode. */
  lemma OpenGood(disk: Store, mode: SyncMode)
    requires Shaped(disk)
    ensures Good(Open(disk, mode)) && Logical(Open(disk, mode)) == disk && Pending(Open(disk, mode)) == []
  {
  }

  // ---------------------------------------------------------------------------
  // Runs

  datatype Event = Call(req: Request, env: Env) | Turn(timeout: bool)

  datatype Answer = Answer(req: Request, now: nat, response: Response)

  /** The final state and the answers given, in order. */
  function Run(s: Engine, events: seq<Event>): (Engine, seq<Answer>)
    decreases |events|
  {
    if events == [] then (s, [])
    else
      match events[0]
      case Turn(timeout) => Run(WorkerTurn(s, timeout), events[1..])
      case Call(req, env) =>
        var (s1, r) := Step(s, req, env);
        var (s2, rest) := Run(s1, events[1..]);
        (s2, [Answer(req, env.now, r)] + rest)
  }

  /** No request of the run met a cache that drops keys under way, or a queue that splits a destroy. */
  predicate AllKept(s: Engine, events: seq<Event>)
    decreases |events|
  {
    if events == [] then true
    else
      match events[0]
      case Turn(timeout) => AllKept(WorkerTurn(s, timeout), events[1..])
      case Call(req, env) => Kept(s, req, env) && AllKept(Step(s, req, env).0, events[1..])
  }

  /** The requests that were not turned away by a full queue. */
  function Accepted(answers: seq<Answer>): seq<Answer>
    decreases |answers|
  {
    if answers == [] then []
    else (if answers[0].response == Failed(QueueFull) then [] else [answers[0]]) + Accepted(answers[1..])
  }

  /** The cacheless engine gives exactly these answers, taking `st` to `st'`. */
  ghost predicate Replays(st: Store, answers: seq<Answer>, st': Store)
    decreases |answers|
  {
    if answers == [] then st == st'
    else
      var (mid, r) := RefStep(st, answers[0].req, answers[0].now);
      r == answers[0].response && Replays(mid, answers[1..], st')
  }

  // ---------------------------------------------------------------------------
  // The cacheless engine on stores that look the same

  lemma SamePayloadWrite(a: Store, b: Store, op: WriteOp, path: string, v: nat)
    requires Same(a, b) && op.key == VersionKey(path, v)
    ensures Same(ApplyOp(a, op), ApplyOp(b, op))
  {
    hide Dead, PathsIn, Shaped, Live;
    PayloadWrite(a, op, path, v);
    PayloadWrite(b, op, path, v);
    var a', b' := ApplyOp(a, op), ApplyOp(b, op);
    forall q: string ensures Get(a', MetaKey(q)) == Get(b', MetaKey(q)) {
      assert Get(a, MetaKey(q)) == Get(b, MetaKey(q));
    }
  }

  lemma SameMetaWrite(a: Store, b: Store, path: string, m: KeyMetadata)
    requires Same(a, b)
    requires forall i: nat :: i < |m.versions| && !m.versions[i].destroyed ==>
               Get(a, VersionKey(path, i + 1)) == Get(b, VersionKey(path, i + 1))
    ensures Same(a[MetaKey(path) := MetaValue(m)], b[MetaKey(path) := MetaValue(m)])
  {
    hide PathsIn;
    MetaWrite(a, path, m);
    MetaWrite(b, path, m);
    var a', b' := a[MetaKey(path) := MetaValue(m)], b[MetaKey(path) := MetaValue(m)];
    forall q: string ensures Get(a', MetaKey(q)) == Get(b', MetaKey(q)) {
      if q != path { assert Get(a, MetaKey(q)) == Get(b, MetaKey(q)); }
    }
    forall q: string, v: nat | Live(a', q, v) ensures Get(a', VersionKey(q, v)) == Get(b', VersionKey(q, v)) {
      if q == path {
        var i: nat := v - 1;
        assert !m.versions[i].destroyed;
      } else {
        SameMeta(a, a', q);
        assert Live(a, q, v);
      }
    }
  }

  /** Stores that look the same give the same answers and go on looking the same. */
  lemma SameStep(a: Store, b: Store, req: Request, now: nat)
    requires Shaped(a) && Same(a, b)
    ensures RefStep(a, req, now).1 == RefStep(b, req, now).1
    ensures Same(RefStep(a, req, now).0, RefStep(b, req, now).0)
  {
    hide MetaKey, VersionKey, Same, ChangeVersion, Shaped, WithNewVersion;
    SameAt(a, b, req.path);
    MetaOrDefaultOk(a, req.path);
    var r := RefMeta(a, req.path);
    match req
    case ReadMetadata(_) =>
    case ReadVersion(path, version) => SameRead(a, b, path, version, now);
    case PutVersion(path, payload, cas) =>
      var m := if r.Failed? then DEFAULT_METADATA else r.meta;
      if !(cas.Some? && m.current != cas.value) { SamePut(a, b, path, payload, m, now); }
    case _ =>
      if r.Metadata? && ChangeVersion(r.meta, req, now).Changed? { SameChange(a, b, r.meta, req, now); }
  }

  lemma SameAt(a: Store, b: Store, path: string)
    requires Same(a, b)
    ensures Get(a, MetaKey(path)) == Get(b, MetaKey(path)) && RefMeta(a, path) == RefMeta(b, path)
  {
  }

  lemma SameRead(a: Store, b: Store, path: string, version: nat, now: nat)
    requires Shaped(a) && Same(a, b)
    ensures RefStep(a, ReadVersion(path, version), now).1 == RefStep(b, ReadVersion(path, version), now).1
  {
    hide Live, Readable;
    SameAt(a, b, path);
    var r := RefMeta(a, path);
    if r.Metadata? && Readable(r.meta, version).Granted? {
      GrantedIsLive(a, path, version);
    }
  }

  lemma SamePut(a: Store, b: Store, path: string, payload: Payload, m: KeyMetadata, now: nat)
    requires Same(a, b) && Numbered(m)
    requires MetaKey(path) in a ==> a[MetaKey(path)] == MetaValue(m)
    requires MetaKey(path) !in a ==> m == DEFAULT_METADATA
    ensures var k := VersionKey(path, m.current + 1);
            Same(a[k := PayloadValue(payload)][MetaKey(path) := MetaValue(WithNewVersion(m, now))],
                 b[k := PayloadValue(payload)][MetaKey(path) := MetaValue(WithNewVersion(m, now))])
  {
    var v := m.current + 1;
    var op := Put(VersionKey(path, v), PayloadValue(payload));
    var a', b' := ApplyOp(a, op), ApplyOp(b, op);
    SamePayloadWrite(a, b, op, path, v);
    PayloadWrite(a, op, path, v);
    var m' := WithNewVersion(m, now);
    forall i: nat | i < |m'.versions| && !m'.versions[i].destroyed
      ensures Get(a', VersionKey(path, i + 1)) == Get(b', VersionKey(path, i + 1))
    {
      if i < |m.versions| { assert Live(a, path, i + 1); assert Live(a', path, i + 1); }
    }
    SameMetaWrite(a', b', path, m');
  }

  lemma SameChange(a: Store, b: Store, m: KeyMetadata, req: Request, now: nat)
    requires req.SoftDelete? || req.Undelete? || req.DestroyVersion?
    requires Same(a, b) && Numbered(m) && MetaKey(req.path) in a && a[MetaKey(req.path)] == MetaValue(m)
    requires ChangeVersion(m, req, now).Changed?
    ensures var mk, k := MetaKey(req.path), VersionKey(req.path, req.version);
            var v := MetaValue(ChangeVersion(m, req, now).meta);
            if req.DestroyVersion? then Same((a - {k})[mk := v], (b - {k})[mk := v]) else Same(a[mk := v], b[mk := v])
  {
    hide ChangeVersion;
    ChangeExtends(m, req, now);
    var path, m' := req.path, ChangeVersion(m, req, now).meta;
    var op := Delete(VersionKey(path, req.version));
    var a', b' := if req.DestroyVersion? then ApplyOp(a, op) else a, if req.DestroyVersion? then ApplyOp(b, op) else b;
    SamePayloadWrite(a, b, op, path, req.version);
    PayloadWrite(a, op, path, req.version);
    forall i: nat | i < |m'.versions| && !m'.versions[i].destroyed
      ensures Get(a', VersionKey(path, i + 1)) == Get(b', VersionKey(path, i + 1))
    {
      assert Live(a, path, i + 1);
      assert Live(a', path, i + 1);
    }
    SameMetaWrite(a', b', path, m');
  }

  // ---------------------------------------------------------------------------
  // Refinement over runs

  predicate NoneRefused(answers: seq<Answer>) {
    forall i :: 0 <= i < |answers| ==> answers[i].response != Failed(QueueFull)
  }

  lemma {:induction false} RunRefinesFrom(s: Engine, events: seq<Event>, st: Store) returns (st': Store)
    requires Good(s) && AllKept(s, events) && Same(Logical(s), st)
    ensures var (s', answers) := Run(s, events);
            && Good(s') && s'.mode == s.mode
            && Replays(st, Accepted(answers), st') && Same(Logical(s'), st')
            && (st == Logical(s) && NoneRefused(answers) ==> st' == Logical(s'))
    decreases |events|
  {
    hide Good, Logical, Step, RefStep, WorkerTurn, Kept, Same;
    if events == [] {
      st' := st;
    } else {
      match events[0]
      case Turn(timeout) =>
        TurnKeeps(s, timeout);
        st' := RunRefinesFrom(WorkerTurn(s, timeout), events[1..], st);
      case Call(req, env) =>
        StepRefines(s, req, env);
        var (s1, r) := Step(s, req, env);
        var (s2, rest) := Run(s1, events[1..]);
        var head := Answer(req, env.now, r);
        NoneRefusedCons(head, rest);
        if r == Failed(QueueFull) {
          StillSame(Logical(s), Logical(s1), st);
          st' := RunRefinesFrom(s1, events[1..], st);
          assert [] + Accepted(rest) == Accepted(rest);
        } else {
          GoodShape(s);
          SameStep(Logical(s), st, req, env.now);
          st' := RunRefinesFrom(s1, events[1..], RefStep(st, req, env.now).0);
        }
    }
  }

  lemma NoneRefusedCons(a: Answer, rest: seq<Answer>)
    ensures NoneRefused([a] + rest) ==> NoneRefused(rest) && a.response != Failed(QueueFull)
  {
    assert ([a] + rest)[0] == a;
    assert forall i :: 0 <= i < |rest| ==> rest[i] == ([a] + rest)[i + 1];
  }

  lemma StillSame(a: Store, a': Store, b: Store)
    requires Same(a, a') && Same(a, b)
    ensures Same(a', b)
  {
    SameTrans(a, a', a');
    SameTrans(a', a, b);
  }

  lemma GoodShape(s: Engine)
    requires Good(s)
    ensures ModeOk(s) && Shaped(Logical(s))
  {
  }

  /**
   Over any run of requests and worker turns that keeps its writes visible, the accepted requests
   are answered exactly as by the cacheless engine on one map, and no reader can tell that map from
   what the layers add up to; if nothing was turned away they are equal.
   */
  lemma RunRefines(s: Engine, events: seq<Event>) returns (st': Store)
    requires Good(s) && AllKept(s, events)
    ensures var (s', answers) := Run(s, events);
            && Good(s') && s'.mode == s.mode
            && Replays(Logical(s), Accepted(answers), st') && Same(Logical(s'), st')
            && (NoneRefused(answers) ==> st' == Logical(s'))
  {
    SameRefl(Logical(s));
    st' := RunRefinesFrom(s, events, Logical(s));
  }

  // ---------------------------------------------------------------------------
  // Immediate mode

  /** Nothing under way, and the cache shows only what is on disk. */
  ghost predicate Direct(s: Engine) {
    s.mode.Immediate? && s.queue == [] && s.batch == [] && Submap(s.cache, s.disk)
  }

  lemma DirectRead(s: Engine, k: string, lost: set<string>)
    requires Direct(s)
    ensures var (s1, v) := ReadRaw(s, k, lost);
            v == Get(s.disk, k) && s1 == s.(cache := s1.cache) && Direct(s1)
  {
  }

  lemma DirectPut(s: Engine, k: string, v: Value, lost: set<string>)
    requires Direct(s)
    ensures var w := Write(s, Put(k, v));
            w.Some? && Direct(CacheInsert(w.value, k, v, lost)) && CacheInsert(w.value, k, v, lost).disk == s.disk[k := v]
  {
  }

  lemma DirectDelete(s: Engine, k: string)
    requires Direct(s)
    ensures var w := Write(s, Delete(k));
            w.Some? && Direct(w.value.(cache := w.value.cache - {k})) && w.value.disk == s.disk - {k}
  {
  }

  lemma DirectStep(s: Engine, req: Request, env: Env)
    requires Direct(s)
    ensures var (s', r) := Step(s, req, env);
            Direct(s') && (s'.disk, r) == RefStep(s.disk, req, env.now)
  {
    hide MetaKey, VersionKey, ChangeVersion, WithNewVersion, ReadRaw, Write, CacheInsert, Submap, Readable;
    DirectRead(s, MetaKey(req.path), env.lostRead);
    var (s1, r) := DoReadMetadata(s, req.path, env.lostRead);
    if req.ReadVersion? {
      if r.Metadata? && Readable(r.meta, req.version).Granted? {
        DirectRead(s1, VersionKey(req.path, Readable(r.meta, req.version).state.id), env.lostFirst);
      }
    } else if req.PutVersion? {
      var m := if r.Failed? then DEFAULT_METADATA else r.meta;
      var k, v := VersionKey(req.path, m.current + 1), PayloadValue(req.payload);
      DirectPut(s1, k, v, env.lostFirst);
      var s3 := CacheInsert(Write(s1, Put(k, v)).value, k, v, env.lostFirst);
      DirectPut(s3, MetaKey(req.path), MetaValue(WithNewVersion(m, env.now)), env.lostSecond);
    } else if !req.ReadMetadata? && r.Metadata? {
      var change := ChangeVersion(r.meta, req, env.now);
      var k := VersionKey(req.path, if req.DestroyVersion? then req.version else 0);
      if change.Changed? {
        DirectDelete(s1, k);
        var w := Write(s1, Delete(k)).value;
        var s2 := if req.DestroyVersion? then w.(cache := w.cache - {k}) else s1;
        DirectPut(s2, MetaKey(req.path), MetaValue(change.meta), env.lostSecond);
      }
    }
  }

  lemma {:induction false} DirectRun(s: Engine, events: seq<Event>)
    requires Direct(s)
    ensures var (s', answers) := Run(s, events); Direct(s') && Replays(s.disk, answers, s'.disk)
    decreases |events|
  {
    hide Step, RefStep;
    if events != [] {
      match events[0]
      case Turn(timeout) => DirectRun(s, events[1..]);
      case Call(req, env) =>
        DirectStep(s, req, env);
        var (s1, r) := Step(s, req, env);
        DirectRun(s1, events[1..]);
        var (s2, rest) := Run(s1, events[1..]);
    }
  }

  /**
   In Immediate mode nothing is asked of the cache or of the disk: whatever the one evicts or loses
   in failed inserts, and whatever the other holds at open, every request is answered as by an engine
   without a cache.
   */
  lemma ImmediateIsCacheless(disk: Store, events: seq<Event>)
    ensures var (s', answers) := Run(Open(disk, Immediate), events);
            Replays(disk, answers, s'.disk)
  {
    DirectRun(Open(disk, Immediate), events);
  }

  // ---------------------------------------------------------------------------
  // The operation log

  /** The log splits into what is on disk and what is under way. */
  predicate Logged(s: Engine) {
    && |Pending(s)| <= |s.log|
    && s.log[|s.log| - |Pending(s)|..] == Pending(s)
    && s.disk == ApplyAll(s.base, s.log[..|s.log| - |Pending(s)|])
  }

  lemma LogicalIsFold(s: Engine)
    requires Logged(s)
    ensures Logical(s) == ApplyAll(s.base, s.log)
  {
    hide ApplyAll;
    var n := |s.log| - |Pending(s)|;
    ApplyConcat(s.base, s.log[..n], s.log[n..]);
    assert s.log == s.log[..n] + s.log[n..];
  }

  lemma LongerTail(log: seq<WriteOp>, n: nat, ops: seq<WriteOp>)
    requires n <= |log|
    ensures (log + ops)[..n] == log[..n] && (log + ops)[n..] == log[n..] + ops
  {
  }

  lemma StepLogged(s: Engine, req: Request, env: Env)
    requires Logged(s) && ModeOk(s)
    ensures Logged(Step(s, req, env).0) && ModeOk(Step(s, req, env).0)
  {
    hide ApplyAll, Step, WritesOf;
    var s' := Step(s, req, env).0;
    var ops := StepWrote(s, req, env);
    var n := |s.log| - |Pending(s)|;
    if s.mode.Batch? {
      assert Pending(s') == Pending(s) + ops;
      LongerTail(s.log, n, ops);
    } else {
      assert Pending(s) == [] && Pending(s') == [];
      assert s.log[..n] == s.log && s'.log[..|s'.log|] == s'.log;
      ApplyConcat(s.base, s.log, ops);
    }
  }

  lemma LoggedAt(s: Engine, n: nat)
    requires n + |Pending(s)| == |s.log| && s.log[n..] == Pending(s) && s.disk == ApplyAll(s.base, s.log[..n])
    ensures Logged(s)
  {
  }

  /** Cutting a sequence that goes on with `a + b` after `a`. */
  lemma CutAfter(log: seq<WriteOp>, n: nat, a: seq<WriteOp>, b: seq<WriteOp>)
    requires n <= |log| && log[n..] == a + b
    ensures n + |a| + |b| == |log|
    ensures log[n + |a|..] == b && log[..n + |a|] == log[..n] + a
  {
    assert log[n..][..|a|] == a && log[n..][|a|..] == b;
  }

  lemma FlushLogged(s: Engine)
    requires Logged(s)
    ensures Logged(Flush(s))
  {
    hide ApplyAll, Logged;
    var n := LogOnDisk(s);
    CutAfter(s.log, n, s.batch, s.queue);
    ApplyConcat(s.base, s.log[..n], s.batch);
    assert Pending(Flush(s)) == s.queue;
    LoggedAt(Flush(s), n + |s.batch|);
  }

  /** How much of the log is on disk. */
  lemma LogOnDisk(s: Engine) returns (n: nat)
    requires Logged(s)
    ensures n + |Pending(s)| == |s.log| && s.log[n..] == s.batch + s.queue && s.disk == ApplyAll(s.base, s.log[..n])
  {
    n := |s.log| - |Pending(s)|;
  }

  lemma TurnLogged(s: Engine, timeout: bool)
    requires Logged(s)
    ensures var s' := WorkerTurn(s, timeout); Logged(s') && s'.log == s.log && s'.base == s.base
  {
    hide ApplyAll;
    DequeueKeeps(s);
    FlushLogged(Dequeue(s));
  }

  /**
   In every run, whatever the cache drops and whenever the queue is full: disk, batch and queue add
   up to the in-order fold of all writes since open, the disk is the fold of a prefix of them, and a
   shutdown leaves the fold of all of them on disk.
   */
  lemma {:induction false} RunLogged(s: Engine, events: seq<Event>)
    requires ModeOk(s) && Logged(s)
    ensures var s' := Run(s, events).0;
            && ModeOk(s') && Logged(s') && s'.base == s.base && s'.mode == s.mode && s.log <= s'.log
            && Logical(s') == ApplyAll(s.base, s'.log)
            && Shutdown(s').disk == ApplyAll(s.base, s'.log)
    decreases |events|
  {
    hide Step, WorkerTurn, ApplyAll, Logged, Logical, WritesOf;
    if events == [] {
      LogicalIsFold(s);
      ShutdownDrains(s);
    } else {
      match events[0]
      case Turn(timeout) =>
        TurnLogical(s, timeout);
        TurnLogged(s, timeout);
        RunLogged(WorkerTurn(s, timeout), events[1..]);
      case Call(req, env) =>
        StepLogged(s, req, env);
        var ops := StepWrote(s, req, env);
        RunLogged(Step(s, req, env).0, events[1..]);
    }
  }

  lemma NothingLogged(s: Engine)
    requires s.log == [] && Pending(s) == [] && s.disk == s.base
    ensures Logged(s) && ModeOk(s)
  {
  }

  /** `RunLogged` for every run of a freshly opened engine, whatever is on its disk. */
  lemma LogicalIsFoldOfWrites(disk: Store, mode: SyncMode, events: seq<Event>)
    ensures var s := Run(Open(disk, mode), events).0;
            && Logical(s) == ApplyAll(disk, s.log)
            && |Pending(s)| <= |s.log| && s.disk == ApplyAll(disk, s.log[..|s.log| - |Pending(s)|])
            && Shutdown(s).disk == ApplyAll(disk, s.log)
  {
    hide Logical, ApplyAll, Shutdown;
    NothingLogged(Open(disk, mode));
    RunLogged(Open(disk, mode), events);
  }

  // ---------------------------------------------------------------------------
  // The path index

  predicate IsMetaKey(k: string) {
    |k| >= 2 && k[..2] == "m:"
  }

  predicate NoMetaDelete(ops: seq<WriteOp>) {
    forall i :: 0 <= i < |ops| && ops[i].Delete? ==> !IsMetaKey(ops[i].key)
  }

  lemma {:induction false} PathsGrow(st: Store, ops: seq<WriteOp>)
    requires NoMetaDelete(ops)
    ensures PathsIn(st) <= PathsIn(ApplyAll(st, ops))
    decreases |ops|
  {
    if ops != [] {
      var rest, last := ops[..|ops| - 1], ops[|ops| - 1];
      PathsGrow(st, rest);
    }
  }

  /** The index lists the logical store's paths; cache and disk know no others. */
  ghost predicate Indexed(s: Engine) {
    && s.index == PathsIn(Logical(s))
    && PathsIn(s.cache) <= s.index
    && NoMetaDelete(Pending(s))
  }

  lemma PathsOfInsert(st: Store, k: string, v: Value, lost: set<string>)
    ensures PathsIn(st[k := v] - lost) <= PathsIn(st) + (if IsMetaKey(k) then {k[2..]} else {})
  {
  }

  /** What a request does to index and cache, as far as paths go. */
  lemma StepPaths(s: Engine, req: Request, env: Env)
    ensures var (s', r) := Step(s, req, env);
            && s'.index == s.index + (if req.PutVersion? && r.Done? then {req.path} else {})
            && PathsIn(s'.cache) <= PathsIn(s.cache) + PathsIn(s.disk) + (if r.Done? then {req.path} else {})
            && (DoReadMetadata(s, req.path, env.lostRead).1.Metadata? ==> req.path in PathsIn(s.cache) + PathsIn(s.disk))
  {
    hide PathsIn, Write, ChangeVersion, WithNewVersion, VersionKey, IsMetaKey, MetaKey;
    var (s1, r) := DoReadMetadata(s, req.path, env.lostRead);
    MetaKeyPath(req.path);
    ReadPaths(s, MetaKey(req.path), env.lostRead);
    match req
    case ReadMetadata(_) =>
    case ReadVersion(path, version) =>
      if r.Metadata? && Readable(r.meta, version).Granted? {
        ReadPaths(s1, VersionKey(path, Readable(r.meta, version).state.id), env.lostFirst);
      }
    case PutVersion(path, payload, cas) =>
      var m := if r.Failed? then DEFAULT_METADATA else r.meta;
      var k := VersionKey(path, m.current + 1);
      VersionKeyPath(path, m.current + 1);
      var w := Write(s1, Put(k, PayloadValue(payload)));
      if w.Some? {
        WriteFields(s1, Put(k, PayloadValue(payload)));
        PathsOfInsert(s1.cache, k, PayloadValue(payload), env.lostFirst);
        var s3 := CacheInsert(w.value, k, PayloadValue(payload), env.lostFirst);
        StoreMetaPaths(s3, path, WithNewVersion(m, env.now), env.lostSecond);
      }
    case DestroyVersion(path, version) =>
      if r.Metadata? {
        var change := ChangeVersion(r.meta, req, env.now);
        var w := Write(s1, Delete(VersionKey(path, version)));
        if change.Changed? && w.Some? {
          WriteFields(s1, Delete(VersionKey(path, version)));
          PathsOfLess(s1.cache, {VersionKey(path, version)});
          StoreMetaPaths(w.value.(cache := w.value.cache - {VersionKey(path, version)}), path, change.meta, env.lostSecond);
        }
      }
    case _ =>
      if r.Metadata? {
        var change := ChangeVersion(r.meta, req, env.now);
        if change.Changed? { StoreMetaPaths(s1, req.path, change.meta, env.lostSecond); }
      }
  }

  lemma WriteFields(s: Engine, op: WriteOp)
    requires Write(s, op).Some?
    ensures var w := Write(s, op).value; w.cache == s.cache && w.index == s.index
  {
  }

  lemma MetaKeyPath(path: string)
    ensures IsMetaKey(MetaKey(path)) && MetaKey(path)[2..] == path
  {
  }

  lemma VersionKeyPath(path: string, v: nat)
    ensures !IsMetaKey(VersionKey(path, v))
  {
    assert VersionKey(path, v)[..2] == "v:";
  }

  lemma PathsOfLess(st: Store, less: set<string>)
    ensures PathsIn(st - less) <= PathsIn(st)
  {
  }

  lemma PathOfKey(st: Store, k: string)
    requires k in st && IsMetaKey(k)
    ensures k[2..] in PathsIn(st)
  {
  }

  lemma ReadPaths(s: Engine, k: string, lost: set<string>)
    ensures var (s1, v) := ReadRaw(s, k, lost);
            && s1 == s.(cache := s1.cache) && PathsIn(s1.cache) <= PathsIn(s.cache) + PathsIn(s.disk)
            && (v.Some? && IsMetaKey(k) ==> k[2..] in PathsIn(s.cache) + PathsIn(s.disk))
  {
    hide PathsIn;
    if k in s.cache {
      if IsMetaKey(k) { PathOfKey(s.cache, k); }
    } else if k in s.disk {
      PathsOfInsert(s.cache, k, s.disk[k], lost);
      if IsMetaKey(k) { PathOfKey(s.disk, k); }
    }
  }

  lemma StoreMetaPaths(s: Engine, path: string, m: KeyMetadata, lost: set<string>)
    ensures var (s', r) := StoreMeta(s, path, m, lost);
            s'.index == s.index && PathsIn(s'.cache) <= PathsIn(s.cache) + (if r.Done? then {path} else {})
  {
    hide PathsIn, IsMetaKey, MetaKey;
    MetaKeyPath(path);
    var op := Put(MetaKey(path), MetaValue(m));
    if Write(s, op).Some? {
      PathsOfInsert(s.cache, op.key, op.value, lost);
    }
  }

  lemma OneWritePaths(st: Store, op: WriteOp, path: string)
    requires (op.Put? && op.key == MetaKey(path)) || exists v: nat :: op.key == VersionKey(path, v)
    ensures op.Delete? ==> !IsMetaKey(op.key)
    ensures PathsIn(ApplyOp(st, op)) == PathsIn(st) + (if op.key == MetaKey(path) then {path} else {})
  {
    hide VersionKey, MetaKey, PathsIn, IsMetaKey;
    MetaKeyPath(path);
    if op.Put? && op.key == MetaKey(path) {
      PathsOfPut(st, op);
    } else {
      var v: nat :| op.key == VersionKey(path, v);
      VersionKeyPath(path, v);
      KeysDisjoint(path, path, v);
      PayloadWrite(st, op, path, v);
    }
  }

  lemma PathsOfPut(st: Store, op: WriteOp)
    requires op.Put? && IsMetaKey(op.key)
    ensures PathsIn(ApplyOp(st, op)) == PathsIn(st) + {op.key[2..]}
  {
  }

  lemma WroteLogical(s: Engine, s': Engine, ops: seq<WriteOp>)
    requires ModeOk(s) && Wrote(s, s', ops)
    ensures Logical(s') == ApplyAll(Logical(s), ops)
    ensures Pending(s') == if s.mode.Immediate? then [] else Pending(s) + ops
  {
    hide ApplyAll;
    ApplyNone(s.disk);
    ApplyNone(s'.disk);
    if s.mode.Batch? {
      assert Pending(s') == Pending(s) + ops;
      ApplyConcat(s.disk, Pending(s), ops);
    }
  }

  /** Every request keeps the index, whatever the cache drops and however full the queue is. */
  lemma StepIndexed(s: Engine, req: Request, env: Env)
    requires Indexed(s) && ModeOk(s)
    ensures Indexed(Step(s, req, env).0)
  {
    hide PathsIn, Step, ApplyAll, IsMetaKey, Logical, Wrote, VersionKey, MetaKey, ChangeVersion, WithNewVersion,
      DoReadMetadata;
    var (s', r) := Step(s, req, env);
    var ops := StepWrote(s, req, env);
    var L := Logical(s);
    StepPaths(s, req, env);
    WroteLogical(s, s', ops);
    DiskPaths(s);
    forall v: nat ensures MetaKey(req.path) != VersionKey(req.path, v) { KeysDisjoint(req.path, req.path, v); }
    if ops == [] {
      ApplyNone(L);
    } else {
      OneWritePaths(L, ops[0], req.path);
      if |ops| == 1 {
        ApplyNone(L);
        ApplySnoc(L, [], ops[0]);
        assert [] + [ops[0]] == ops;
      } else {
        OneWritePaths(ApplyOp(L, ops[0]), ops[1], req.path);
        ApplyPair(L, ops[0], ops[1]);
        assert [ops[0], ops[1]] == ops;
      }
    }
  }

  lemma DiskPaths(s: Engine)
    requires Indexed(s)
    ensures PathsIn(s.disk) <= s.index
  {
    PathsGrow(s.disk, Pending(s));
  }

  lemma TurnIndexed(s: Engine, timeout: bool)
    requires Indexed(s)
    ensures Indexed(WorkerTurn(s, timeout))
  {
    hide PathsIn, ApplyAll, KeysOf, IsMetaKey;
    TurnLogical(s, timeout);
    var s' := WorkerTurn(s, timeout);
    var n := |Pending(s)| - |Pending(s')|;
    assert Pending(s') == Pending(s)[n..];
  }

  lemma {:induction false} RunIndexed(s: Engine, events: seq<Event>)
    requires Indexed(s) && ModeOk(s) && Logged(s)
    ensures Indexed(Run(s, events).0)
    decreases |events|
  {
    hide Indexed, Step, WorkerTurn, Logged;
    if events != [] {
      match events[0]
      case Turn(timeout) =>
        TurnIndexed(s, timeout);
        TurnLogical(s, timeout);
        TurnLogged(s, timeout);
        RunIndexed(WorkerTurn(s, timeout), events[1..]);
      case Call(req, env) =>
        StepIndexed(s, req, env);
        StepLogged(s, req, env);
        RunIndexed(Step(s, req, env).0, events[1..]);
    }
  }

  /**
   A clean drop and reopen after any run, whatever was on disk, dropped by the cache or turned away:
   the reopened engine holds the fold of all writes and lists the same paths.
   */
  lemma CleanReopen(disk: Store, mode: SyncMode, events: seq<Event>, again: SyncMode)
    ensures var s := Run(Open(disk, mode), events).0;
            var t := Open(Shutdown(s).disk, again);
            && Logical(t) == Logical(s) == ApplyAll(disk, s.log)
            && t.index == s.index == PathsIn(Logical(s))
  {
    hide PathsIn, ApplyAll, Shutdown, Logged;
    var o := Open(disk, mode);
    var s := Run(o, events).0;
    NothingLogged(Open(disk, mode));
    RunLogged(o, events);
    ApplyNone(disk);
    assert Pending(o) == [];
    NoPaths();
    RunIndexed(o, events);
    var t := Open(Shutdown(s).disk, again);
    assert Pending(t) == [];
    ApplyNone(t.disk);
  }

  lemma NoPaths()
    ensures PathsIn(map[]) == {}
  {
  }
}
