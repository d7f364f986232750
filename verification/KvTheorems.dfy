/** What the engine guarantees across cache, queue, worker and disk, proved about `KvModel`. */
module KvTheorems {
  import opened Options
  import opened Maps
  import opened KvModel

  // ---------------------------------------------------------------------------
  // Batches

  lemma {:induction false} ApplyConcat(st: Store, a: seq<WriteOp>, b: seq<WriteOp>)
    ensures ApplyAll(st, a + b) == ApplyAll(ApplyAll(st, a), b)
    decreases |b|
  {
    if b == [] {
      assert a + b == a;
    } else {
      assert (a + b)[..|a + b| - 1] == a + b[..|b| - 1];
      ApplyConcat(st, a, b[..|b| - 1]);
    }
  }

  lemma ApplySnoc(st: Store, a: seq<WriteOp>, op: WriteOp)
    ensures ApplyAll(st, a + [op]) == ApplyOp(ApplyAll(st, a), op)
  {
  }

  lemma ApplyNone(st: Store)
    ensures ApplyAll(st, []) == st
  {
  }

  lemma ApplyPair(st: Store, a: WriteOp, b: WriteOp)
    ensures ApplyAll(st, [a, b]) == ApplyOp(ApplyOp(st, a), b)
  {
    hide ApplyOp, ApplyAll;
    ApplyNone(st);
    ApplySnoc(st, [], a);
    ApplySnoc(st, [a], b);
    assert [] + [a] == [a] && [a] + [b] == [a, b];
  }

  lemma {:induction false} Untouched(st: Store, ops: seq<WriteOp>, k: string)
    requires k !in KeysOf(ops)
    ensures Get(ApplyAll(st, ops), k) == Get(st, k)
    decreases |ops|
  {
    if ops != [] {
      var rest := ops[..|ops| - 1];
      assert k !in KeysOf(rest) by {
        forall i | 0 <= i < |rest| ensures rest[i].key != k { assert rest[i] == ops[i]; }
      }
      Untouched(st, rest, k);
    }
  }

  lemma KeysOfConcat(a: seq<WriteOp>, b: seq<WriteOp>)
    ensures KeysOf(a + b) == KeysOf(a) + KeysOf(b)
  {
    var c := a + b;
    forall k | k in KeysOf(a) ensures k in KeysOf(c) {
      var i :| 0 <= i < |a| && a[i].key == k;
      assert c[i] == a[i];
    }
    forall k | k in KeysOf(b) ensures k in KeysOf(c) {
      var i :| 0 <= i < |b| && b[i].key == k;
      assert c[|a| + i] == b[i];
    }
    forall k | k in KeysOf(c) ensures k in KeysOf(a) + KeysOf(b) {
      var i :| 0 <= i < |c| && c[i].key == k;
      if i < |a| { assert c[i] == a[i]; } else { assert c[i] == b[i - |a|]; }
    }
  }

  lemma KeysOfOne(op: WriteOp)
    ensures KeysOf([op]) == {op.key}
  {
    assert [op][0] == op;
  }

  // ---------------------------------------------------------------------------
  // The store an engine stands for

  function Pending(s: Engine): seq<WriteOp> {
    s.batch + s.queue
  }

  /** The keys with a write under way. */
  function PendingKeys(s: Engine): set<string> {
    KeysOf(Pending(s))
  }

  /** Disk overlaid by the worker's batch and then the queue. */
  function Logical(s: Engine): Store {
    ApplyAll(s.disk, Pending(s))
  }

  /** `k` is the payload key of a version the path's metadata lists as destroyed. */
  predicate DeadAt(st: Store, k: string, path: string, i: nat) {
    && MetaKey(path) in st && st[MetaKey(path)].MetaValue?
    && var vs := st[MetaKey(path)].meta.versions;
       i < |vs| && vs[i].destroyed && k == VersionKey(path, vs[i].id)
  }

  ghost predicate Dead(st: Store, k: string) {
    exists path: string, i: nat :: DeadAt(st, k, path, i)
  }

  /** Nothing is queued while writes go straight to disk. */
  predicate ModeOk(s: Engine) {
    s.mode.Immediate? ==> Pending(s) == []
  }

  /**
   The cache shows only logical values, and every key with a write under way is in it; payload keys
   of destroyed versions, and those in `except`, may be missing.
   */
  ghost predicate CoherentExcept(s: Engine, except: set<string>) {
    && Submap(s.cache, Logical(s))
    && forall k :: k in PendingKeys(s) ==> k in s.cache || Dead(Logical(s), k) || k in except
  }

  ghost predicate Coherent(s: Engine) {
    CoherentExcept(s, {})
  }

  /** Versions are numbered 1..current, in order. */
  predicate Numbered(m: KeyMetadata) {
    && |m.versions| == m.current
    && forall i :: 0 <= i < |m.versions| ==> m.versions[i].id == i + 1
  }

  predicate MetaOk(st: Store, path: string) {
    MetaKey(path) in st ==> st[MetaKey(path)].MetaValue? && Numbered(st[MetaKey(path)].meta)
  }

  /** Every path's metadata lists versions 1..n. */
  ghost predicate Shaped(st: Store) {
    forall path: string :: MetaOk(st, path)
  }

  /** A version the path's metadata lists and has not destroyed. */
  predicate Live(st: Store, path: string, version: nat) {
    && MetaKey(path) in st && st[MetaKey(path)].MetaValue?
    && var vs := st[MetaKey(path)].meta.versions;
       1 <= version <= |vs| && !vs[version - 1].destroyed
  }

  predicate HasPayload(st: Store, path: string, version: nat) {
    VersionKey(path, version) in st && st[VersionKey(path, version)].PayloadValue?
  }

  /** A live version whose payload is gone. */
  predicate Gap(st: Store, path: string, version: nat) {
    Live(st, path, version) && !HasPayload(st, path, version)
  }

  /** Every live version has its payload, except those in `gaps`. */
  ghost predicate Complete(st: Store, gaps: set<(string, nat)>) {
    forall path: string, version: nat :: Gap(st, path, version) ==> (path, version) in gaps
  }

  ghost predicate StoreOk(st: Store) {
    Shaped(st) && Complete(st, {})
  }

  /** No reader can tell the two stores apart: same metadata, same payloads for live versions. */
  ghost predicate Same(a: Store, b: Store) {
    && (forall path: string :: Get(a, MetaKey(path)) == Get(b, MetaKey(path)))
    && forall path: string, version: nat :: Live(a, path, version) ==>
         Get(a, VersionKey(path, version)) == Get(b, VersionKey(path, version))
  }

  lemma SameMeta(a: Store, b: Store, path: string)
    requires Get(a, MetaKey(path)) == Get(b, MetaKey(path))
    ensures MetaOk(a, path) <==> MetaOk(b, path)
    ensures RefMeta(a, path) == RefMeta(b, path)
    ensures forall version: nat :: Live(a, path, version) <==> Live(b, path, version)
  {
  }

  lemma SameTrans(a: Store, b: Store, c: Store)
    requires Same(a, b) && Same(b, c)
    ensures Same(a, c) && Same(b, a)
  {
    forall path: string, version: nat ensures Live(a, path, version) <==> Live(b, path, version) {
      SameMeta(a, b, path);
    }
  }

  lemma SameShape(a: Store, b: Store, gaps: set<(string, nat)>)
    requires Same(a, b) && Shaped(a)
    ensures Shaped(b) && (Complete(a, gaps) ==> Complete(b, gaps))
  {
    forall path: string ensures MetaOk(b, path) {
      assert MetaOk(a, path);
      SameMeta(a, b, path);
    }
    if Complete(a, gaps) {
      forall path: string, version: nat | Gap(b, path, version) ensures (path, version) in gaps {
        SameMeta(a, b, path);
        assert Live(a, path, version);
        assert Get(a, VersionKey(path, version)) == Get(b, VersionKey(path, version));
        assert Gap(a, path, version);
      }
    }
  }

  // ---------------------------------------------------------------------------
  // Reads and writes through the layers

  lemma ReadCoherent(s: Engine, k: string, lost: set<string>)
    requires Coherent(s) && !Dead(Logical(s), k) && lost !! PendingKeys(s)
    ensures var (s1, v) := ReadRaw(s, k, lost);
            && v == Get(Logical(s), k)
            && s1 == s.(cache := s1.cache) && Coherent(s1)
  {
    hide Dead, ApplyAll;
    if k !in s.cache {
      Untouched(s.disk, Pending(s), k);
    }
  }

  /** A read of a key returns its logical value exactly when the key is cached or the disk has caught up. */
  lemma ReadRightIff(s: Engine, k: string, lost: set<string>)
    requires Submap(s.cache, Logical(s))
    ensures ReadRaw(s, k, lost).1 == Get(Logical(s), k) <==> k in s.cache || Get(s.disk, k) == Get(Logical(s), k)
  {
    hide Logical;
  }

  lemma WriteLogical(s: Engine, op: WriteOp)
    requires ModeOk(s) && Write(s, op).Some?
    ensures var s' := Write(s, op).value;
            && ModeOk(s') && Logical(s') == ApplyOp(Logical(s), op)
            && s'.cache == s.cache && s'.index == s.index && s'.mode == s.mode
            && PendingKeys(s') == PendingKeys(s) + (if s.mode.Immediate? then {} else {op.key})
  {
    hide ApplyAll, KeysOf, ApplyOp;
    var s' := Write(s, op).value;
    if s.mode.Batch? {
      assert Pending(s') == Pending(s) + [op];
      ApplySnoc(s.disk, Pending(s), op);
      KeysOfConcat(Pending(s), [op]);
      KeysOfOne(op);
    } else {
      assert Pending(s') == [] && Pending(s) == [];
      ApplyNone(s.disk);
      ApplyNone(s'.disk);
    }
  }

  /** Writing a value and caching it keeps coherence, if what was dead stays dead. */
  lemma PutThrough(s: Engine, k: string, v: Value, lost: set<string>, except: set<string>)
    requires ModeOk(s) && CoherentExcept(s, except) && Write(s, Put(k, v)).Some?
    requires lost !! PendingKeys(Write(s, Put(k, v)).value)
    requires forall x :: Dead(Logical(s), x) ==> Dead(Logical(s)[k := v], x)
    ensures var s' := CacheInsert(Write(s, Put(k, v)).value, k, v, lost);
            && ModeOk(s') && Logical(s') == Logical(s)[k := v] && CoherentExcept(s', except)
            && PendingKeys(s') == PendingKeys(Write(s, Put(k, v)).value)
            && s'.index == s.index && s'.mode == s.mode
  {
    hide Dead, ApplyAll;
    WriteLogical(s, Put(k, v));
  }

  /** Deleting a key and uncaching it leaves only that key unaccounted for. */
  lemma DeleteThrough(s: Engine, k: string)
    requires ModeOk(s) && Coherent(s) && Write(s, Delete(k)).Some?
    requires forall x :: Dead(Logical(s), x) ==> Dead(Logical(s) - {k}, x)
    ensures var w := Write(s, Delete(k)).value;
            var s' := w.(cache := w.cache - {k});
            && ModeOk(s') && Logical(s') == Logical(s) - {k} && CoherentExcept(s', {k})
            && PendingKeys(s') == PendingKeys(w)
            && s'.index == s.index && s'.mode == s.mode
  {
    hide Dead, ApplyAll;
    WriteLogical(s, Delete(k));
  }

  // ---------------------------------------------------------------------------
  // Dead keys

  lemma MetaNeverDead(st: Store, path: string)
    ensures !Dead(st, MetaKey(path))
  {
    forall q: string, i: nat ensures !DeadAt(st, MetaKey(path), q, i) {
      if DeadAt(st, MetaKey(path), q, i) { KeysDisjoint(path, q, st[MetaKey(q)].meta.versions[i].id); }
    }
  }

  lemma LiveNotDead(st: Store, path: string, version: nat)
    requires Shaped(st) && Live(st, path, version)
    ensures !Dead(st, VersionKey(path, version))
  {
    var k := VersionKey(path, version);
    forall q: string, j: nat ensures !DeadAt(st, k, q, j) {
      if DeadAt(st, k, q, j) {
        assert MetaOk(st, q);
        VersionKeyInjective(path, version, q, st[MetaKey(q)].meta.versions[j].id);
      }
    }
  }

  /** `m'` keeps every version of `m` with its number, and destroys at least as much. */
  predicate Extends(m: KeyMetadata, m': KeyMetadata) {
    && |m.versions| <= |m'.versions|
    && forall i :: 0 <= i < |m.versions| ==>
         m'.versions[i].id == m.versions[i].id && (m.versions[i].destroyed ==> m'.versions[i].destroyed)
  }

  /** Dead keys survive any write that leaves metadata alone or extends it. */
  lemma DeadPersists(st: Store, st': Store)
    requires forall path: string :: MetaKey(path) in st && st[MetaKey(path)].MetaValue? ==>
               && MetaKey(path) in st' && st'[MetaKey(path)].MetaValue?
               && Extends(st[MetaKey(path)].meta, st'[MetaKey(path)].meta)
    ensures forall x :: Dead(st, x) ==> Dead(st', x)
  {
    forall x | Dead(st, x) ensures Dead(st', x) {
      var path: string, i: nat :| DeadAt(st, x, path, i);
      assert DeadAt(st', x, path, i);
    }
  }

  // ---------------------------------------------------------------------------
  // What each write does to a store

  /** A write under a payload key leaves all metadata as it is. */
  lemma PayloadWrite(st: Store, op: WriteOp, path: string, v: nat)
    requires op.key == VersionKey(path, v)
    ensures var st' := ApplyOp(st, op);
            && (forall q: string :: Get(st', MetaKey(q)) == Get(st, MetaKey(q)))
            && (forall q: string, w: nat :: (q, w) != (path, v) ==>
                  Get(st', VersionKey(q, w)) == Get(st, VersionKey(q, w)))
            && (forall q: string, w: nat :: Live(st', q, w) <==> Live(st, q, w))
            && (Shaped(st) ==> Shaped(st'))
            && (forall x :: Dead(st, x) ==> Dead(st', x))
            && PathsIn(st') == PathsIn(st)
  {
    var st' := ApplyOp(st, op);
    forall q: string ensures Get(st', MetaKey(q)) == Get(st, MetaKey(q)) && (MetaOk(st, q) <==> MetaOk(st', q)) {
      KeysDisjoint(q, path, v);
    }
    forall q: string, w: nat | (q, w) != (path, v) ensures Get(st', VersionKey(q, w)) == Get(st, VersionKey(q, w)) {
      if VersionKey(q, w) == VersionKey(path, v) { VersionKeyInjective(q, w, path, v); }
    }
    forall q: string, w: nat ensures Live(st', q, w) <==> Live(st, q, w) {
      SameMeta(st, st', q);
    }
    PayloadWriteDead(st, st');
    assert op.key[..2] == "v:";
  }

  lemma PayloadWriteDead(st: Store, st': Store)
    requires forall q: string :: Get(st', MetaKey(q)) == Get(st, MetaKey(q))
    ensures forall x :: Dead(st, x) ==> Dead(st', x)
  {
    forall q: string | MetaKey(q) in st && st[MetaKey(q)].MetaValue?
      ensures && MetaKey(q) in st' && st'[MetaKey(q)].MetaValue? && Extends(st[MetaKey(q)].meta, st'[MetaKey(q)].meta)
    {
      assert Get(st', MetaKey(q)) == Get(st, MetaKey(q));
    }
    DeadPersists(st, st');
  }

  /** Nobody sees a write under the payload key of a version that is not live. */
  lemma UnseenWrite(st: Store, op: WriteOp, path: string, v: nat)
    requires op.key == VersionKey(path, v) && !Live(st, path, v)
    ensures Same(st, ApplyOp(st, op))
  {
    hide Dead, PathsIn, Live, Shaped, ApplyOp;
    PayloadWrite(st, op, path, v);
  }

  /** Storing a payload opens no gap; deleting one opens at most its own. */
  lemma PayloadGaps(st: Store, op: WriteOp, path: string, v: nat, gaps: set<(string, nat)>)
    requires op.key == VersionKey(path, v) && Complete(st, gaps)
    requires op.Put? ==> op.value.PayloadValue?
    ensures Complete(ApplyOp(st, op), if op.Put? then gaps else gaps + {(path, v)})
  {
    hide Dead, PathsIn, Live, Shaped;
    PayloadWrite(st, op, path, v);
    var st' := ApplyOp(st, op);
    forall q: string, w: nat | Gap(st', q, w) ensures (q, w) in gaps || (op.Delete? && (q, w) == (path, v)) {
      assert Get(st', VersionKey(q, w)) == Get(st, VersionKey(q, w)) || (q, w) == (path, v);
      if !Gap(st, q, w) { assert (q, w) == (path, v); }
    }
  }

  /** Metadata that a store may take: numbered, and extending what is there. */
  predicate Fits(st: Store, path: string, m: KeyMetadata) {
    && Numbered(m)
    && (MetaKey(path) in st ==> st[MetaKey(path)].MetaValue? && Extends(st[MetaKey(path)].meta, m))
  }

  lemma MetaWrite(st: Store, path: string, m: KeyMetadata)
    ensures var st' := st[MetaKey(path) := MetaValue(m)];
            && (forall q: string :: q != path ==> Get(st', MetaKey(q)) == Get(st, MetaKey(q)))
            && (forall q: string, w: nat :: Get(st', VersionKey(q, w)) == Get(st, VersionKey(q, w)))
            && PathsIn(st') == PathsIn(st) + {path}
  {
    var st' := st[MetaKey(path) := MetaValue(m)];
    forall q: string | q != path ensures Get(st', MetaKey(q)) == Get(st, MetaKey(q)) {
      if MetaKey(q) == MetaKey(path) { MetaKeyInjective(q, path); }
    }
    forall q: string, w: nat ensures Get(st', VersionKey(q, w)) == Get(st, VersionKey(q, w)) {
      KeysDisjoint(path, q, w);
    }
  }

  lemma PutMetaOk(st: Store, path: string, m: KeyMetadata)
    requires Shaped(st) && Fits(st, path, m)
    ensures var st' := st[MetaKey(path) := MetaValue(m)];
            && Shaped(st') && (forall x :: Dead(st, x) ==> Dead(st', x))
            && PathsIn(st') == PathsIn(st) + {path}
  {
    hide PathsIn;
    var st' := st[MetaKey(path) := MetaValue(m)];
    MetaWrite(st, path, m);
    forall q: string ensures MetaOk(st', q) {
      assert MetaOk(st, q);
      if q != path { SameMeta(st, st', q); }
    }
    forall q: string | MetaKey(q) in st && st[MetaKey(q)].MetaValue?
      ensures MetaKey(q) in st' && st'[MetaKey(q)].MetaValue? && Extends(st[MetaKey(q)].meta, st'[MetaKey(q)].meta)
    {
      assert q != path ==> Get(st', MetaKey(q)) == Get(st, MetaKey(q));
    }
    DeadPersists(st, st');
  }

  /** New metadata opens gaps only at live versions of its own that have no payload. */
  lemma MetaGaps(st: Store, path: string, m: KeyMetadata, before: set<(string, nat)>, after: set<(string, nat)>)
    requires Complete(st, before)
    requires forall q: string, v: nat :: (q, v) in before && q != path ==> (q, v) in after
    requires forall i :: 0 <= i < |m.versions| && !m.versions[i].destroyed ==> HasPayload(st, path, i + 1) || (path, i + 1) in after
    ensures Complete(st[MetaKey(path) := MetaValue(m)], after)
  {
    hide PathsIn;
    var st' := st[MetaKey(path) := MetaValue(m)];
    MetaWrite(st, path, m);
    forall q: string, v: nat | Gap(st', q, v) ensures (q, v) in after {
      assert Get(st', VersionKey(q, v)) == Get(st, VersionKey(q, v));
      if q == path {
        var i := v - 1;
        assert !m.versions[i].destroyed;
      } else {
        SameMeta(st, st', q);
        assert Gap(st, q, v);
      }
    }
  }

  /** A successful change keeps the numbering and only ever destroys. */
  lemma ChangeExtends(m: KeyMetadata, req: Request, now: nat)
    requires req.SoftDelete? || req.Undelete? || req.DestroyVersion?
    requires Numbered(m) && ChangeVersion(m, req, now).Changed?
    ensures var m' := ChangeVersion(m, req, now).meta;
            && Numbered(m') && Extends(m, m') && m'.current == m.current
            && 1 <= req.version <= m.current
            && (forall i :: 0 <= i < |m.versions| && !m'.versions[i].destroyed ==> !m.versions[i].destroyed)
            && (req.DestroyVersion? ==> m'.versions[req.version - 1].destroyed)
            && (!req.DestroyVersion? ==> forall i :: 0 <= i < |m.versions| ==>
                  m'.versions[i].destroyed == m.versions[i].destroyed)
  {
  }

  lemma ChangeErrors(m: KeyMetadata, req: Request, now: nat)
    requires req.SoftDelete? || req.Undelete? || req.DestroyVersion?
    requires ChangeVersion(m, req, now).Refused?
    ensures ChangeVersion(m, req, now).error != QueueFull
  {
  }

  /** The metadata a put or a change starts from. */
  lemma MetaOrDefaultOk(st: Store, path: string)
    requires Shaped(st)
    ensures RefMeta(st, path).Failed? ==> MetaKey(path) !in st && RefMeta(st, path) == Failed(NotFound)
    ensures RefMeta(st, path).Metadata? ==>
              && MetaKey(path) in st && st[MetaKey(path)] == MetaValue(RefMeta(st, path).meta)
              && Numbered(RefMeta(st, path).meta)
  {
    assert MetaOk(st, path);
  }

  lemma MetaPresent(st: Store, path: string)
    requires MetaKey(path) in st
    ensures path in PathsIn(st)
  {
  }

  // ---------------------------------------------------------------------------
  // What a request writes

  /** `s'` came from `s` by writing `ops` and otherwise touching only cache and index. */
  predicate Wrote(s: Engine, s': Engine, ops: seq<WriteOp>) {
    && s'.log == s.log + ops && s'.base == s.base && s'.batch == s.batch && s'.mode == s.mode
    && s'.queue == (if s.mode.Immediate? then s.queue else s.queue + ops)
    && s'.disk == (if s.mode.Immediate? then ApplyAll(s.disk, ops) else s.disk)
  }

  lemma WroteNothing(s: Engine, s': Engine)
    requires s' == s.(cache := s'.cache, index := s'.index)
    ensures Wrote(s, s', [])
  {
  }

  lemma WroteOne(s: Engine, op: WriteOp)
    requires Write(s, op).Some?
    ensures Wrote(s, Write(s, op).value, [op])
  {
  }

  lemma WroteThen(s: Engine, s1: Engine, s2: Engine, a: seq<WriteOp>, b: seq<WriteOp>)
    requires Wrote(s, s1, a) && Wrote(s1, s2, b)
    ensures Wrote(s, s2, a + b)
  {
    hide ApplyAll;
    ApplyConcat(s.disk, a, b);
    assert s.log + a + b == s.log + (a + b) && s.queue + a + b == s.queue + (a + b);
  }

  /** The metadata write of a request. */
  lemma StoreMetaWrote(s: Engine, path: string, m: KeyMetadata, lost: set<string>) returns (ops: seq<WriteOp>)
    ensures Wrote(s, StoreMeta(s, path, m, lost).0, ops)
    ensures ops == if StoreMeta(s, path, m, lost).1.Done? then [Put(MetaKey(path), MetaValue(m))] else []
  {
    hide Wrote, MetaKey;
    var op := Put(MetaKey(path), MetaValue(m));
    if Write(s, op).None? {
      ops := [];
      WroteNothing(s, s);
    } else {
      ops := [op];
      var w := Write(s, op).value;
      WroteOne(s, op);
      WroteNothing(w, CacheInsert(w, op.key, op.value, lost));
      WroteThen(s, w, CacheInsert(w, op.key, op.value, lost), [op], []);
      assert [op] + [] == [op];
    }
  }

  /** What a put writes after it has read the metadata: payload first, then metadata. */
  lemma PutWrote(s: Engine, path: string, payload: Payload, m: KeyMetadata, env: Env) returns (ops: seq<WriteOp>)
    requires Write(s, Put(VersionKey(path, m.current + 1), PayloadValue(payload))).Some?
    ensures var vkey := VersionKey(path, m.current + 1);
            var s3 := CacheInsert(Write(s, Put(vkey, PayloadValue(payload))).value, vkey, PayloadValue(payload), env.lostFirst);
            var (s4, r) := StoreMeta(s3, path, WithNewVersion(m, env.now), env.lostSecond);
            && Wrote(s, if r.Done? then s4.(index := s4.index + {path}) else s4, ops)
            && ops == [Put(vkey, PayloadValue(payload))]
                      + (if r.Done? then [Put(MetaKey(path), MetaValue(WithNewVersion(m, env.now)))] else [])
  {
    hide Wrote, MetaKey, VersionKey, WithNewVersion, StoreMeta, Write;
    var op := Put(VersionKey(path, m.current + 1), PayloadValue(payload));
    var w := Write(s, op).value;
    var s3 := CacheInsert(w, op.key, op.value, env.lostFirst);
    WroteOne(s, op);
    WroteNothing(w, s3);
    WroteThen(s, w, s3, [op], []);
    assert [op] + [] == [op];
    var rest := StoreMetaWrote(s3, path, WithNewVersion(m, env.now), env.lostSecond);
    ops := [op] + rest;
    var (s4, r) := StoreMeta(s3, path, WithNewVersion(m, env.now), env.lostSecond);
    WroteThen(s, s3, s4, [op], rest);
    var s5 := if r.Done? then s4.(index := s4.index + {path}) else s4;
    WroteNothing(s4, s5);
    WroteThen(s, s4, s5, ops, []);
    assert ops + [] == ops;
  }

  /** What a destroy writes after it has read the metadata: the delete first, then metadata. */
  lemma DestroyWrote(s: Engine, path: string, version: nat, m: KeyMetadata, env: Env) returns (ops: seq<WriteOp>)
    requires Write(s, Delete(VersionKey(path, version))).Some?
    ensures var vkey := VersionKey(path, version);
            var w := Write(s, Delete(vkey)).value;
            var (s', r) := StoreMeta(w.(cache := w.cache - {vkey}), path, m, env.lostSecond);
            && Wrote(s, s', ops)
            && ops == [Delete(vkey)] + (if r.Done? then [Put(MetaKey(path), MetaValue(m))] else [])
  {
    hide Wrote, MetaKey, VersionKey, StoreMeta, Write;
    var op := Delete(VersionKey(path, version));
    var w := Write(s, op).value;
    var s2 := w.(cache := w.cache - {op.key});
    WroteOne(s, op);
    WroteNothing(w, s2);
    WroteThen(s, w, s2, [op], []);
    assert [op] + [] == [op];
    var rest := StoreMetaWrote(s2, path, m, env.lostSecond);
    ops := [op] + rest;
    WroteThen(s, s2, StoreMeta(s2, path, m, env.lostSecond).0, [op], rest);
  }

  /** The writes of a request, given the metadata it read and what it answered. */
  predicate WritesOf(req: Request, read: Response, env: Env, answer: Response, ops: seq<WriteOp>) {
    if ops == [] then !answer.Done?
    else
      && (req.PutVersion? || (read.Metadata? && (req.SoftDelete? || req.Undelete? || req.DestroyVersion?)))
      && if req.PutVersion? then
           var m := if read.Metadata? then read.meta else DEFAULT_METADATA;
           && (read.Metadata? || read == Failed(NotFound))
           && ops == [Put(VersionKey(req.path, m.current + 1), PayloadValue(req.payload))]
                     + (if answer.Done? then [Put(MetaKey(req.path), MetaValue(WithNewVersion(m, env.now)))] else [])
         else
           var change := ChangeVersion(read.meta, req, env.now);
           && change.Changed?
           && ops == (if req.DestroyVersion? then [Delete(VersionKey(req.path, req.version))] else [])
                     + (if answer.Done? then [Put(MetaKey(req.path), MetaValue(change.meta))] else [])
  }

  /** Every request writes some operations in order and otherwise touches only cache and index. */
  lemma StepWrote(s: Engine, req: Request, env: Env) returns (ops: seq<WriteOp>)
    ensures Wrote(s, Step(s, req, env).0, ops)
    ensures var (s1, r) := DoReadMetadata(s, req.path, env.lostRead);
            WritesOf(req, r, env, Step(s, req, env).1, ops)
  {
    hide Wrote, MetaKey, VersionKey, ChangeVersion, WithNewVersion, StoreMeta, Write;
    var s' := Step(s, req, env).0;
    var (s1, r) := DoReadMetadata(s, req.path, env.lostRead);
    WroteNothing(s, s1);
    ops := [];
    if req.PutVersion? {
      var m := if r.Failed? then DEFAULT_METADATA else r.meta;
      if (r.Failed? && r.error != NotFound) || (req.cas.Some? && m.current != req.cas.value)
        || Write(s1, Put(VersionKey(req.path, m.current + 1), PayloadValue(req.payload))).None? {
      } else {
        ops := PutWrote(s1, req.path, req.payload, m, env);
        WroteThen(s, s1, s', [], ops);
        assert [] + ops == ops;
      }
    } else if req.ReadVersion? {
      WroteNothing(s, s');
    } else if r.Metadata? && !req.ReadMetadata? {
      var change := ChangeVersion(r.meta, req, env.now);
      if change.Changed? {
        if req.DestroyVersion? {
          if Write(s1, Delete(VersionKey(req.path, req.version))).Some? {
            ops := DestroyWrote(s1, req.path, req.version, change.meta, env);
          } else {
            WroteNothing(s1, s');
          }
        } else {
          ops := StoreMetaWrote(s1, req.path, change.meta, env.lostSecond);
        }
        WroteThen(s, s1, s', [], ops);
        assert [] + ops == ops;
      }
    }
  }

  // ---------------------------------------------------------------------------
  // One request against the cacheless engine

  ghost predicate Good(s: Engine) {
    && ModeOk(s)
    && Coherent(s)
    && Shaped(Logical(s))
    && s.index == PathsIn(Logical(s))
  }

  /** No insert of the request dropped a key with a write under way at that moment. */
  predicate Undropped(s: Engine, req: Request, env: Env) {
    var after := PendingKeys(Step(s, req, env).0);
    && env.lostRead !! PendingKeys(s)
    && env.lostFirst !! PendingKeys(s)
    && env.lostFirst - {MetaKey(req.path)} !! after
    && env.lostSecond !! after
  }

  /** The queue has room for the delete of a live version's payload and not for its metadata. */
  predicate SplitsDestroy(s: Engine, req: Request) {
    && req.DestroyVersion? && s.mode.Batch? && |s.queue| + 1 == QUEUE_CAPACITY
    && Live(Logical(s), req.path, req.version)
  }

  predicate Kept(s: Engine, req: Request, env: Env) {
    Undropped(s, req, env) && !SplitsDestroy(s, req)
  }

  /**
   Same answer and same store as the cacheless engine; or QueueFull, and a store that no reader can
   tell from the old one.
   */
  ghost predicate Refines(s: Engine, req: Request, env: Env, s': Engine, r: Response) {
    && Good(s') && s'.mode == s.mode
    && if r == Failed(QueueFull) then s.mode.Batch? && Same(Logical(s), Logical(s'))
       else (Logical(s'), r) == RefStep(Logical(s), req, env.now)
  }

  lemma ReadMetaRight(s: Engine, path: string, lost: set<string>)
    requires Good(s) && lost !! PendingKeys(s)
    ensures var (s1, r) := DoReadMetadata(s, path, lost);
            && r == RefMeta(Logical(s), path) && r != Failed(StorageError) && r != Failed(QueueFull)
            && s1 == s.(cache := s1.cache) && Good(s1) && Logical(s1) == Logical(s) && Pending(s1) == Pending(s)
  {
    hide ApplyAll, Dead, KeysOf;
    MetaNeverDead(Logical(s), path);
    ReadCoherent(s, MetaKey(path), lost);
    assert MetaOk(Logical(s), path);
  }

  lemma GrantedIsLive(st: Store, path: string, version: nat)
    requires Shaped(st) && RefMeta(st, path).Metadata? && Readable(RefMeta(st, path).meta, version).Granted?
    ensures Live(st, path, Readable(RefMeta(st, path).meta, version).state.id)
  {
    assert MetaOk(st, path);
  }

  lemma ReadVersionRight(s: Engine, path: string, version: nat, env: Env)
    requires Good(s) && Kept(s, ReadVersion(path, version), env)
    ensures var (s', r) := DoReadVersion(s, path, version, env);
            Refines(s, ReadVersion(path, version), env, s', r) && Pending(s') == Pending(s)
  {
    hide ApplyAll, Dead, PathsIn, Shaped, KeysOf;
    ReadMetaRight(s, path, env.lostRead);
    var (s1, r) := DoReadMetadata(s, path, env.lostRead);
    if r.Metadata? {
      var access := Readable(r.meta, version);
      if access.Granted? {
        GrantedIsLive(Logical(s), path, version);
        LiveNotDead(Logical(s1), path, access.state.id);
        ReadCoherent(s1, VersionKey(path, access.state.id), env.lostFirst);
      }
    }
  }

  /** Storing metadata that the store may take. */
  lemma StoreMetaRight(s: Engine, path: string, m: KeyMetadata, lost: set<string>, except: set<string>)
    requires ModeOk(s) && CoherentExcept(s, except) && Shaped(Logical(s)) && Fits(Logical(s), path, m)
    requires forall k :: k in except ==> Dead(Logical(s)[MetaKey(path) := MetaValue(m)], k)
    requires Write(s, Put(MetaKey(path), MetaValue(m))).Some?
    requires lost !! PendingKeys(StoreMeta(s, path, m, lost).0)
    ensures var (s', r) := StoreMeta(s, path, m, lost);
            && r == Done && s'.mode == s.mode && s'.index == s.index
            && ModeOk(s') && Coherent(s') && Shaped(Logical(s'))
            && Logical(s') == Logical(s)[MetaKey(path) := MetaValue(m)]
            && PathsIn(Logical(s')) == PathsIn(Logical(s)) + {path}
  {
    hide ApplyAll, Dead, PathsIn, Fits, Shaped;
    PutMetaOk(Logical(s), path, m);
    PutThrough(s, MetaKey(path), MetaValue(m), lost, except);
  }

  lemma NewVersionFits(st: Store, path: string, v: nat, p: Payload, m: KeyMetadata, now: nat)
    requires Numbered(m)
    requires MetaKey(path) in st ==> st[MetaKey(path)] == MetaValue(m)
    ensures Fits(st[VersionKey(path, v) := PayloadValue(p)], path, WithNewVersion(m, now))
  {
    KeysDisjoint(path, path, v);
  }

  /** Writing a payload and caching it. */
  lemma PayloadThrough(s: Engine, path: string, v: nat, p: Payload, lost: set<string>)
    requires Good(s) && Write(s, Put(VersionKey(path, v), PayloadValue(p))).Some?
    requires lost !! PendingKeys(Write(s, Put(VersionKey(path, v), PayloadValue(p))).value)
    ensures var k := VersionKey(path, v);
            var s' := CacheInsert(Write(s, Put(k, PayloadValue(p))).value, k, PayloadValue(p), lost);
            Good(s') && s'.mode == s.mode && s'.index == s.index && Logical(s') == Logical(s)[k := PayloadValue(p)]
  {
    hide ApplyAll, Dead, PathsIn, Shaped, CoherentExcept, KeysOf, VersionKey;
    PayloadWrite(Logical(s), Put(VersionKey(path, v), PayloadValue(p)), path, v);
    PutThrough(s, VersionKey(path, v), PayloadValue(p), lost, {});
  }

  lemma PutRight(s: Engine, path: string, payload: Payload, cas: Option<nat>, env: Env)
    requires Good(s) && Kept(s, PutVersion(path, payload, cas), env)
    ensures var (s', r) := DoPutVersion(s, path, payload, cas, env);
            Refines(s, PutVersion(path, payload, cas), env, s', r)
  {
    hide ApplyAll, Dead, PathsIn, Shaped, CoherentExcept, WithNewVersion, MetaKey, VersionKey, KeysOf, Same,
      StoreMeta, SplitsDestroy;
    ReadMetaRight(s, path, env.lostRead);
    var (s1, r) := DoReadMetadata(s, path, env.lostRead);
    MetaOrDefaultOk(Logical(s), path);
    SameRefl(Logical(s));
    var m := if r.Failed? then DEFAULT_METADATA else r.meta;
    if !(cas.Some? && m.current != cas.value) {
      if Write(s1, Put(VersionKey(path, m.current + 1), PayloadValue(payload))).Some? {
        PutWrites(s1, path, payload, m, env);
      }
    }
  }

  lemma SameRefl(st: Store)
    ensures Same(st, st)
  {
  }

  /** The two writes of a put, from a state whose metadata for the path is `m`. */
  lemma PutWrites(s: Engine, path: string, payload: Payload, m: KeyMetadata, env: Env)
    requires Good(s) && Numbered(m)
    requires MetaKey(path) in Logical(s) ==> Logical(s)[MetaKey(path)] == MetaValue(m)
    requires MetaKey(path) !in Logical(s) ==> m == DEFAULT_METADATA
    requires Write(s, Put(VersionKey(path, m.current + 1), PayloadValue(payload))).Some?
    requires var vkey := VersionKey(path, m.current + 1);
             var s3 := CacheInsert(Write(s, Put(vkey, PayloadValue(payload))).value, vkey, PayloadValue(payload), env.lostFirst);
             var after := PendingKeys(StoreMeta(s3, path, WithNewVersion(m, env.now), env.lostSecond).0);
             env.lostFirst !! PendingKeys(s) && env.lostFirst - {MetaKey(path)} !! after && env.lostSecond !! after
    ensures var vkey := VersionKey(path, m.current + 1);
            var s3 := CacheInsert(Write(s, Put(vkey, PayloadValue(payload))).value, vkey, PayloadValue(payload), env.lostFirst);
            var (s4, r) := StoreMeta(s3, path, WithNewVersion(m, env.now), env.lostSecond);
            && s4.mode == s.mode
            && if r == Done then
                 && Good(s4.(index := s4.index + {path}))
                 && Logical(s4.(index := s4.index + {path})) ==
                    Logical(s)[vkey := PayloadValue(payload)][MetaKey(path) := MetaValue(WithNewVersion(m, env.now))]
               else
                 s.mode.Batch? && r == Failed(QueueFull) && Good(s4) && Same(Logical(s), Logical(s4))
  {
    hide ApplyAll, Dead, PathsIn, Shaped, CoherentExcept, WithNewVersion, KeysOf, Fits, Same;
    var L := Logical(s);
    var vkey := VersionKey(path, m.current + 1);
    var op := Put(vkey, PayloadValue(payload));
    var w := Write(s, op).value;
    var s3 := CacheInsert(w, vkey, PayloadValue(payload), env.lostFirst);
    var m' := WithNewVersion(m, env.now);
    var (s4, r) := StoreMeta(s3, path, m', env.lostSecond);
    WriteLogical(s, op);
    assert Pending(s3) == Pending(w);
    KeysDisjoint(path, path, m.current + 1);
    if r == Done {
      WriteLogical(s3, Put(MetaKey(path), MetaValue(m')));
      assert Pending(s4) == Pending(Write(s3, Put(MetaKey(path), MetaValue(m'))).value);
      PayloadThrough(s, path, m.current + 1, payload, env.lostFirst);
      NewVersionFits(L, path, m.current + 1, payload, m, env.now);
      StoreMetaRight(s3, path, m', env.lostSecond, {});
      var s5 := s4.(index := s4.index + {path});
      assert Pending(s5) == Pending(s4) && Logical(s5) == Logical(s4);
      SameCoherence(s4, s5);
    } else {
      PayloadThrough(s, path, m.current + 1, payload, env.lostFirst);
      UnseenWrite(L, op, path, m.current + 1);
    }
  }

  lemma SameCoherence(s: Engine, s': Engine)
    requires s' == s.(index := s'.index) && Coherent(s) && ModeOk(s)
    ensures Coherent(s') && ModeOk(s')
  {
  }

  lemma ChangeFits(st: Store, path: string, m: KeyMetadata, req: Request, now: nat)
    requires req.SoftDelete? || req.Undelete? || req.DestroyVersion?
    requires MetaKey(path) in st && st[MetaKey(path)] == MetaValue(m) && Numbered(m)
    requires ChangeVersion(m, req, now).Changed?
    ensures Fits(st, path, ChangeVersion(m, req, now).meta)
  {
    ChangeExtends(m, req, now);
  }

  lemma ChangeRight(s: Engine, req: Request, env: Env)
    requires req.SoftDelete? || req.Undelete?
    requires Good(s) && Kept(s, req, env)
    ensures var (s', r) := DoChange(s, req, env); Refines(s, req, env, s', r)
  {
    hide ApplyAll, Dead, PathsIn, Shaped, CoherentExcept, ChangeVersion, Fits, KeysOf, Same;
    ReadMetaRight(s, req.path, env.lostRead);
    var (s1, r) := DoReadMetadata(s, req.path, env.lostRead);
    MetaOrDefaultOk(Logical(s), req.path);
    SameRefl(Logical(s));
    if r.Metadata? {
      var change := ChangeVersion(r.meta, req, env.now);
      if change.Refused? {
        ChangeErrors(r.meta, req, env.now);
      } else if Write(s1, Put(MetaKey(req.path), MetaValue(change.meta))).Some? {
        ChangeFits(Logical(s1), req.path, r.meta, req, env.now);
        StoreMetaRight(s1, req.path, change.meta, env.lostSecond, {});
        MetaPresent(Logical(s1), req.path);
      }
    }
  }

  lemma DestroyFits(st: Store, path: string, m: KeyMetadata, version: nat, now: nat)
    requires MetaKey(path) in st && st[MetaKey(path)] == MetaValue(m) && Numbered(m)
    requires ChangeVersion(m, DestroyVersion(path, version), now).Changed?
    ensures var m' := ChangeVersion(m, DestroyVersion(path, version), now).meta;
            var vkey := VersionKey(path, version);
            && Fits(st - {vkey}, path, m')
            && Dead((st - {vkey})[MetaKey(path) := MetaValue(m')], vkey)
            && (!Live(st, path, version) ==> Dead(st - {vkey}, vkey))
  {
    var req := DestroyVersion(path, version);
    ChangeExtends(m, req, now);
    KeysDisjoint(path, path, version);
    var m', vkey := ChangeVersion(m, req, now).meta, VersionKey(path, version);
    assert DeadAt((st - {vkey})[MetaKey(path) := MetaValue(m')], vkey, path, version - 1);
    if !Live(st, path, version) {
      assert DeadAt(st - {vkey}, vkey, path, version - 1);
    }
  }

  lemma DestroyRight(s: Engine, path: string, version: nat, env: Env)
    requires Good(s) && Kept(s, DestroyVersion(path, version), env)
    ensures var (s', r) := DoDestroy(s, path, version, env);
            Refines(s, DestroyVersion(path, version), env, s', r)
  {
    hide ApplyAll, Dead, PathsIn, Shaped, CoherentExcept, ChangeVersion, KeysOf, Same, Live;
    var req := DestroyVersion(path, version);
    ReadMetaRight(s, path, env.lostRead);
    var (s1, r) := DoReadMetadata(s, path, env.lostRead);
    MetaOrDefaultOk(Logical(s), path);
    SameRefl(Logical(s));
    if r.Metadata? {
      var change := ChangeVersion(r.meta, req, env.now);
      if change.Refused? {
        ChangeErrors(r.meta, req, env.now);
      } else if Write(s1, Delete(VersionKey(path, version))).Some? {
        DestroyWrites(s1, path, version, r.meta, env);
      }
    }
  }

  /** The delete and the metadata write of a destroy. */
  lemma DestroyWrites(s: Engine, path: string, version: nat, m: KeyMetadata, env: Env)
    requires Good(s) && Numbered(m) && !SplitsDestroy(s, DestroyVersion(path, version))
    requires MetaKey(path) in Logical(s) && Logical(s)[MetaKey(path)] == MetaValue(m)
    requires ChangeVersion(m, DestroyVersion(path, version), env.now).Changed?
    requires Write(s, Delete(VersionKey(path, version))).Some?
    requires var vkey := VersionKey(path, version);
             var w := Write(s, Delete(vkey)).value;
             var m' := ChangeVersion(m, DestroyVersion(path, version), env.now).meta;
             env.lostSecond !! PendingKeys(StoreMeta(w.(cache := w.cache - {vkey}), path, m', env.lostSecond).0)
    ensures var vkey := VersionKey(path, version);
            var w := Write(s, Delete(vkey)).value;
            var m' := ChangeVersion(m, DestroyVersion(path, version), env.now).meta;
            var (s', r) := StoreMeta(w.(cache := w.cache - {vkey}), path, m', env.lostSecond);
            && s'.mode == s.mode && Good(s')
            && if r == Done then Logical(s') == (Logical(s) - {vkey})[MetaKey(path) := MetaValue(m')]
               else s.mode.Batch? && r == Failed(QueueFull) && Same(Logical(s), Logical(s'))
  {
    hide ApplyAll, Dead, PathsIn, Shaped, CoherentExcept, ChangeVersion, Fits, KeysOf, Same, Live;
    var L := Logical(s);
    var vkey := VersionKey(path, version);
    var w := Write(s, Delete(vkey)).value;
    var s2 := w.(cache := w.cache - {vkey});
    var m' := ChangeVersion(m, DestroyVersion(path, version), env.now).meta;
    PayloadWrite(L, Delete(vkey), path, version);
    DeleteThrough(s, vkey);
    DestroyFits(L, path, m, version, env.now);
    if Write(s2, Put(MetaKey(path), MetaValue(m'))).Some? {
      StoreMetaRight(s2, path, m', env.lostSecond, {vkey});
      MetaPresent(L, path);
    } else {
      UnseenWrite(L, Delete(vkey), path, version);
      DeadCovers(s2, vkey);
    }
  }

  lemma DeadCovers(s: Engine, k: string)
    requires CoherentExcept(s, {k}) && Dead(Logical(s), k)
    ensures Coherent(s)
  {
  }

  /**
   One request, in either mode: as long as the cache drops no key with a write under way and the
   queue does not split the destroy of a live version, the engine answers as the cacheless engine
   would on the logical store, and leaves that engine's store behind.
   */
  lemma StepRefines(s: Engine, req: Request, env: Env)
    requires Good(s) && Kept(s, req, env)
    ensures var (s', r) := Step(s, req, env); Refines(s, req, env, s', r)
  {
    hide ApplyAll, Dead, PathsIn, Shaped, CoherentExcept, KeysOf, Same;
    match req
    case ReadMetadata(path) => ReadMetaRight(s, path, env.lostRead);
    case ReadVersion(path, version) => ReadVersionRight(s, path, version, env);
    case PutVersion(path, payload, cas) => PutRight(s, path, payload, cas, env);
    case SoftDelete(_, _) => ChangeRight(s, req, env);
    case Undelete(_, _) => ChangeRight(s, req, env);
    case DestroyVersion(path, version) => DestroyRight(s, path, version, env);
  }
}
