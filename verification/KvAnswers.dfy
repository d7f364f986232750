/**
 What a client is told.  Every answer of the cacheless engine is characterised by the stored metadata
 and payloads alone, every write by the answers it changes and those it leaves, and every answer of a
 run by the history of acknowledged requests before it.  `KvRuns.RunRefines` carries all of this over
 to the engine.
 */
module KvAnswers {
  import opened Options
  import opened Maps
  import opened KvModel
  import opened KvTheorems
  import opened KvRuns
  import opened KvLifecycle

  /** The metadata stored for a path; what a put starts from if there is none. */
  function Stored(st: Store, path: string): KeyMetadata {
    if MetaKey(path) in st && st[MetaKey(path)].MetaValue? then st[MetaKey(path)].meta else KeyMetadata(0, 0, false, 0, [])
  }

  /** The version a read is after: 0 asks for the latest. */
  function Target(st: Store, path: string, version: nat): nat {
    if version == 0 then Stored(st, path).current else version
  }

  predicate Lists(st: Store, path: string, v: nat) {
    MetaKey(path) in st && 1 <= v <= |Stored(st, path).versions|
  }

  function StateOf(st: Store, path: string, v: nat): VersionState
    requires Lists(st, path, v)
  {
    Stored(st, path).versions[v - 1]
  }

  /** Neither destroyed nor deleted. */
  predicate Offered(st: Store, path: string, v: nat) {
    Lists(st, path, v) && !StateOf(st, path, v).destroyed && StateOf(st, path, v).deletionMs == 0
  }

  lemma ShapedMeta(st: Store, path: string)
    requires Shaped(st)
    ensures MetaKey(path) in st ==> st[MetaKey(path)] == MetaValue(Stored(st, path))
    ensures RefMeta(st, path) == if MetaKey(path) in st then Metadata(Stored(st, path)) else Failed(NotFound)
    ensures Numbered(Stored(st, path)) && Cur(st, path) == Stored(st, path).current
  {
    assert MetaOk(st, path);
  }

  /** In numbered metadata version `v` stands at place `v - 1`. */
  lemma FindNumbered(m: KeyMetadata, v: nat)
    requires Numbered(m)
    ensures Find(m.versions, v, 0) == if 1 <= v <= |m.versions| then Some((v - 1) as nat) else None
  {
    if 1 <= v <= |m.versions| {
      assert m.versions[v - 1].id == v;
      var f := Find(m.versions, v, 0);
      assert m.versions[f.value].id == f.value + 1;
    }
  }

  // ---------------------------------------------------------------------------
  // Reads

  /** Each answer to a version read, exactly when it is given. */
  ghost predicate ReadAnswer(st: Store, path: string, version: nat, r: Response) {
    var v := Target(st, path, version);
    && (r == Failed(NotFound) <==> MetaKey(path) !in st)
    && (r == Failed(InvalidVersion(version)) <==> MetaKey(path) in st && !Lists(st, path, v))
    && (r == Failed(Destroyed) <==> Lists(st, path, v) && StateOf(st, path, v).destroyed)
    && (r == Failed(SoftDeleted) <==>
        Lists(st, path, v) && !StateOf(st, path, v).destroyed && StateOf(st, path, v).deletionMs > 0)
    && (r == Failed(StorageError) <==> Offered(st, path, v) && !HasPayload(st, path, v))
    && forall p: Payload, state: VersionState ::
         r == Data(p, state) <==>
         Offered(st, path, v) && Get(st, VersionKey(path, v)) == Some(PayloadValue(p)) && state == StateOf(st, path, v)
  }

  lemma ReadExact(st: Store, path: string, version: nat, now: nat)
    requires Shaped(st)
    ensures RefStep(st, ReadVersion(path, version), now).0 == st
    ensures ReadAnswer(st, path, version, RefStep(st, ReadVersion(path, version), now).1)
  {
    hide MetaKey, VersionKey, Shaped, Find;
    ShapedMeta(st, path);
    if MetaKey(path) in st {
      var m, v := Stored(st, path), Target(st, path, version);
      FindNumbered(m, v);
      if 1 <= v <= |m.versions| { assert m.versions[v - 1].id == v; }
    }
  }

  /** Metadata reads answer what is stored. */
  lemma MetadataExact(st: Store, path: string, now: nat)
    requires Shaped(st)
    ensures RefStep(st, ReadMetadata(path), now) ==
            (st, if MetaKey(path) in st then Metadata(Stored(st, path)) else Failed(NotFound))
  {
    hide MetaKey, Shaped;
    ShapedMeta(st, path);
  }

  /** A reader of a version cannot tell the stores apart. */
  ghost predicate ReadsAlike(a: Store, b: Store, path: string, version: nat) {
    forall now: nat :: RefStep(a, ReadVersion(path, version), now).1 == RefStep(b, ReadVersion(path, version), now).1
  }

  lemma SameVersion(a: Store, b: Store, path: string, version: nat)
    requires Shaped(a) && Shaped(b) && Target(a, path, version) == Target(b, path, version)
    requires MetaKey(path) in a <==> MetaKey(path) in b
    requires var v := Target(a, path, version);
             && (Lists(a, path, v) <==> Lists(b, path, v))
             && (Lists(a, path, v) ==> StateOf(a, path, v) == StateOf(b, path, v))
             && (Offered(a, path, v) ==> Get(a, VersionKey(path, v)) == Get(b, VersionKey(path, v)))
    ensures ReadsAlike(a, b, path, version)
  {
    hide MetaKey, VersionKey, Shaped, RefStep;
    forall now: nat ensures RefStep(a, ReadVersion(path, version), now).1 == RefStep(b, ReadVersion(path, version), now).1 {
      ReadExact(a, path, version, now);
      ReadExact(b, path, version, now);
      SameAnswer(a, path, version, RefStep(a, ReadVersion(path, version), now).1, RefStep(b, ReadVersion(path, version), now).1, b);
    }
  }

  lemma SameAnswer(a: Store, path: string, version: nat, r: Response, q: Response, b: Store)
    requires ReadAnswer(a, path, version, r) && ReadAnswer(b, path, version, q)
    requires Target(a, path, version) == Target(b, path, version) && (MetaKey(path) in a <==> MetaKey(path) in b)
    requires var v := Target(a, path, version);
             && (Lists(a, path, v) <==> Lists(b, path, v))
             && (Lists(a, path, v) ==> StateOf(a, path, v) == StateOf(b, path, v))
             && (Offered(a, path, v) ==> Get(a, VersionKey(path, v)) == Get(b, VersionKey(path, v)))
    ensures r == q
  {
    hide MetaKey, VersionKey;
    var v := Target(a, path, version);
    if Offered(a, path, v) && HasPayload(a, path, v) {
      var p := a[VersionKey(path, v)].payload;
      assert r == Data(p, StateOf(a, path, v));
      assert q == Data(p, StateOf(b, path, v));
    }
  }

  // ---------------------------------------------------------------------------
  // Puts

  /** What an acknowledged put leaves: one new state and one payload, and everything else as it was. */
  ghost predicate PutStores(st: Store, st': Store, path: string, payload: Payload, now: nat) {
    var m, m' := Stored(st, path), Stored(st', path);
    var n := m.current + 1;
    && MetaKey(path) in st' && m' == m.(current := n, versions := m'.versions)
    && |m'.versions| == n && m'.versions[..n - 1] == m.versions && m'.versions[n - 1] == VersionState(now, 0, n, false)
    && Get(st', VersionKey(path, n)) == Some(PayloadValue(payload))
    && forall k :: k != MetaKey(path) && k != VersionKey(path, n) ==> Get(st', k) == Get(st, k)
  }

  /** Each answer to a put, exactly when it is given, and what it leaves. */
  ghost predicate PutAnswer(
    st: Store, st': Store, path: string, payload: Payload, cas: Option<nat>, now: nat, r: Response)
  {
    && (r == Done <==> cas.None? || cas.value == Stored(st, path).current)
    && (r == Done ==> PutStores(st, st', path, payload, now))
    && (r != Done ==> st' == st && cas.Some? && r == Failed(CasMismatch(cas.value, Stored(st, path).current)))
  }

  lemma PutExact(st: Store, path: string, payload: Payload, cas: Option<nat>, now: nat)
    requires Shaped(st)
    ensures var (st', r) := RefStep(st, PutVersion(path, payload, cas), now); PutAnswer(st, st', path, payload, cas, now, r)
  {
    hide MetaKey, VersionKey, Shaped, RefMeta, Numbered, PutStores, WithNewVersion;
    ShapedMeta(st, path);
    PutLeaves(st, path, payload, Stored(st, path), now);
  }

  lemma PutLeaves(st: Store, path: string, payload: Payload, m: KeyMetadata, now: nat)
    requires Numbered(m) && m == Stored(st, path)
    ensures var st' := st[VersionKey(path, m.current + 1) := PayloadValue(payload)][MetaKey(path) := MetaValue(WithNewVersion(m, now))];
            PutStores(st, st', path, payload, now)
  {
    hide MetaKey, VersionKey;
    KeysDisjoint(path, path, m.current + 1);
    assert (m.versions + [VersionState(now, 0, m.current + 1, false)])[..|m.versions|] == m.versions;
  }

  /**
   After an acknowledged put the new version is read under its number and as the latest, and every read
   of an earlier version and of another path answers as before.
   */
  lemma PutAnswers(st: Store, path: string, payload: Payload, cas: Option<nat>, now: nat, later: nat)
    requires Shaped(st) && RefStep(st, PutVersion(path, payload, cas), now).1 == Done
    ensures var st' := RefStep(st, PutVersion(path, payload, cas), now).0;
            var n := Cur(st, path) + 1;
            && RefStep(st', ReadVersion(path, 0), later).1 == Data(payload, VersionState(now, 0, n, false))
            && RefStep(st', ReadVersion(path, n), later).1 == Data(payload, VersionState(now, 0, n, false))
            && (forall v: nat :: 1 <= v < n ==> ReadsAlike(st, st', path, v))
            && (forall q: string, v: nat :: q != path ==> ReadsAlike(st, st', q, v))
            && forall q: string :: q != path ==> RefStep(st', ReadMetadata(q), later).1 == RefStep(st, ReadMetadata(q), later).1
  {
    hide MetaKey, VersionKey, Shaped, RefStep, ReadsAlike, PutStores;
    var st' := RefStep(st, PutVersion(path, payload, cas), now).0;
    var n := Cur(st, path) + 1;
    PutExact(st, path, payload, cas, now);
    RefStepOk(st, PutVersion(path, payload, cas), now, {});
    ShapedMeta(st, path);
    NewReads(st, st', path, payload, now, later);
    forall v: nat | 1 <= v < n ensures ReadsAlike(st, st', path, v) { EarlierReads(st, st', path, payload, now, v); }
    forall q: string | q != path ensures SamePath(st, st', q) { OtherPath(st, st', path, payload, now, q); }
    OthersAnswer(st, st', path, later);
  }

  lemma NewReads(st: Store, st': Store, path: string, payload: Payload, now: nat, later: nat)
    requires Shaped(st') && PutStores(st, st', path, payload, now)
    ensures var n := Stored(st, path).current + 1;
            && RefStep(st', ReadVersion(path, 0), later).1 == Data(payload, VersionState(now, 0, n, false))
            && RefStep(st', ReadVersion(path, n), later).1 == Data(payload, VersionState(now, 0, n, false))
  {
    hide MetaKey, VersionKey, Shaped, RefStep;
    var n := Stored(st, path).current + 1;
    ReadExact(st', path, 0, later);
    ReadExact(st', path, n, later);
    assert Offered(st', path, n);
  }

  lemma EarlierReads(st: Store, st': Store, path: string, payload: Payload, now: nat, v: nat)
    requires Shaped(st) && Shaped(st') && PutStores(st, st', path, payload, now) && 1 <= v <= Stored(st, path).current
    ensures ReadsAlike(st, st', path, v)
  {
    hide MetaKey, VersionKey, Shaped, RefStep, ReadsAlike;
    ShapedMeta(st, path);
    ShapedMeta(st', path);
    var m, m' := Stored(st, path), Stored(st', path);
    assert m'.versions[..m.current][v - 1] == m'.versions[v - 1];
    KeysDisjoint(path, path, v);
    if VersionKey(path, v) == VersionKey(path, m.current + 1) { VersionKeyInjective(path, v, path, m.current + 1); }
    SameVersion(st, st', path, v);
  }

  /** Everything stored for a path is the same. */
  ghost predicate SamePath(a: Store, b: Store, path: string) {
    && Get(a, MetaKey(path)) == Get(b, MetaKey(path))
    && forall v: nat :: Get(a, VersionKey(path, v)) == Get(b, VersionKey(path, v))
  }

  lemma OtherPath(st: Store, st': Store, path: string, payload: Payload, now: nat, q: string)
    requires PutStores(st, st', path, payload, now) && q != path
    ensures SamePath(st, st', q)
  {
    hide MetaKey, VersionKey;
    OtherPathKeys(path, Stored(st, path).current + 1, q);
  }

  lemma OtherPathKeys(path: string, n: nat, q: string)
    requires q != path
    ensures MetaKey(q) != MetaKey(path) && MetaKey(q) != VersionKey(path, n)
    ensures forall v: nat :: VersionKey(q, v) != MetaKey(path) && VersionKey(q, v) != VersionKey(path, n)
  {
    if MetaKey(q) == MetaKey(path) { MetaKeyInjective(q, path); }
    KeysDisjoint(q, path, n);
    forall v: nat ensures VersionKey(q, v) != MetaKey(path) && VersionKey(q, v) != VersionKey(path, n) {
      KeysDisjoint(path, q, v);
      if VersionKey(q, v) == VersionKey(path, n) { VersionKeyInjective(q, v, path, n); }
    }
  }

  /** Readers of a path whose keys are untouched are answered as before. */
  lemma SamePathReads(a: Store, b: Store, q: string, later: nat)
    requires Shaped(a) && Shaped(b) && SamePath(a, b, q)
    ensures forall v: nat :: ReadsAlike(a, b, q, v)
    ensures RefStep(b, ReadMetadata(q), later).1 == RefStep(a, ReadMetadata(q), later).1
  {
    hide MetaKey, VersionKey, Shaped, ReadsAlike;
    forall v: nat ensures ReadsAlike(a, b, q, v) { SameVersion(a, b, q, v); }
  }

  lemma OthersAnswer(st: Store, st': Store, path: string, later: nat)
    requires Shaped(st) && Shaped(st') && forall q: string :: q != path ==> SamePath(st, st', q)
    ensures forall q: string, v: nat :: q != path ==> ReadsAlike(st, st', q, v)
    ensures forall q: string :: q != path ==> RefStep(st', ReadMetadata(q), later).1 == RefStep(st, ReadMetadata(q), later).1
  {
    hide MetaKey, VersionKey, Shaped, ReadsAlike, SamePath, RefStep;
    forall q: string, v: nat | q != path ensures ReadsAlike(st, st', q, v) { SamePathReads(st, st', q, later); }
    forall q: string | q != path
      ensures RefStep(st', ReadMetadata(q), later).1 == RefStep(st, ReadMetadata(q), later).1
    {
      SamePathReads(st, st', q, later);
    }
  }

  // ---------------------------------------------------------------------------
  // Soft delete, undelete, destroy

  predicate IsChange(req: Request) {
    req.SoftDelete? || req.Undelete? || req.DestroyVersion?
  }

  /** The state of the version after an acknowledged change. */
  function Marked(state: VersionState, req: Request, now: nat): VersionState
    requires IsChange(req)
  {
    match req
    case SoftDelete(_, _) => VersionState(state.createdMs, now, state.id, state.destroyed)
    case Undelete(_, _) => VersionState(state.createdMs, 0, state.id, state.destroyed)
    case DestroyVersion(_, _) => VersionState(state.createdMs, state.deletionMs, state.id, true)
  }

  /** What an acknowledged change leaves: one state marked, a destroyed payload gone, all else as it was. */
  ghost predicate ChangeStores(st: Store, st': Store, req: Request, now: nat)
    requires IsChange(req)
  {
    var m, m' := Stored(st, req.path), Stored(st', req.path);
    && Lists(st, req.path, req.version) && MetaKey(req.path) in st' && m' == m.(versions := m'.versions)
    && |m'.versions| == |m.versions|
    && m'.versions[req.version - 1] == Marked(m.versions[req.version - 1], req, now)
    && (forall i :: 0 <= i < |m.versions| && i != req.version - 1 ==> m'.versions[i] == m.versions[i])
    && (req.DestroyVersion? ==> VersionKey(req.path, req.version) !in st')
    && forall k :: k != MetaKey(req.path) && !(req.DestroyVersion? && k == VersionKey(req.path, req.version)) ==>
         Get(st', k) == Get(st, k)
  }

  /** Each answer to a change, exactly when it is given, and what it leaves. */
  ghost predicate ChangeAnswer(st: Store, st': Store, req: Request, now: nat, r: Response)
    requires IsChange(req)
  {
    && (r == Failed(NotFound) <==> MetaKey(req.path) !in st)
    && (r == Failed(InvalidVersion(req.version)) <==> MetaKey(req.path) in st && !Lists(st, req.path, req.version))
    && (r == Failed(Destroyed) <==>
        Lists(st, req.path, req.version) && req.Undelete? && StateOf(st, req.path, req.version).destroyed)
    && (r == Done <==>
        Lists(st, req.path, req.version) && !(req.Undelete? && StateOf(st, req.path, req.version).destroyed))
    && (r == Done ==> ChangeStores(st, st', req, now))
    && (r != Done ==> st' == st)
  }

  lemma ChangeExact(st: Store, req: Request, now: nat)
    requires Shaped(st) && IsChange(req)
    ensures var (st', r) := RefStep(st, req, now); ChangeAnswer(st, st', req, now, r)
  {
    hide MetaKey, VersionKey, Shaped, Find;
    ShapedMeta(st, req.path);
    FindNumbered(Stored(st, req.path), req.version);
    KeysDisjoint(req.path, req.path, req.version);
  }

  lemma ChangedReads(st: Store, st': Store, req: Request, now: nat, version: nat)
    requires Shaped(st) && Shaped(st') && IsChange(req) && ChangeStores(st, st', req, now)
    requires Target(st, req.path, version) != req.version
    ensures ReadsAlike(st, st', req.path, version)
  {
    hide MetaKey, VersionKey, Shaped, RefStep, ReadsAlike;
    var v := Target(st, req.path, version);
    KeysDisjoint(req.path, req.path, v);
    if VersionKey(req.path, v) == VersionKey(req.path, req.version) { VersionKeyInjective(req.path, v, req.path, req.version); }
    SameVersion(st, st', req.path, version);
  }

  /** Whatever a change does, it does to the one version: all other reads answer as before. */
  lemma ChangeLeavesOthers(st: Store, req: Request, now: nat, later: nat)
    requires Shaped(st) && IsChange(req)
    ensures var st' := RefStep(st, req, now).0;
            && (forall version: nat :: Target(st, req.path, version) != req.version ==> ReadsAlike(st, st', req.path, version))
            && (forall q: string, v: nat :: q != req.path ==> ReadsAlike(st, st', q, v))
            && forall q: string :: q != req.path ==>
                 RefStep(st', ReadMetadata(q), later).1 == RefStep(st, ReadMetadata(q), later).1
  {
    hide MetaKey, VersionKey, Shaped, RefStep, ReadsAlike, ChangeStores, SamePath, Target;
    var (st', r) := RefStep(st, req, now);
    ChangeExact(st, req, now);
    RefStepOk(st, req, now, {});
    if r == Done {
      forall version: nat | Target(st, req.path, version) != req.version ensures ReadsAlike(st, st', req.path, version) {
        ChangedReads(st, st', req, now, version);
      }
      forall q: string | q != req.path ensures SamePath(st, st', q) { OtherPathChange(st, st', req, now, q); }
      OthersAnswer(st, st', req.path, later);
    } else {
      forall q: string, v: nat ensures ReadsAlike(st, st', q, v) { AlikeItself(st, q, v); }
    }
  }

  lemma AlikeItself(st: Store, path: string, v: nat)
    ensures ReadsAlike(st, st, path, v)
  {
  }

  lemma OtherPathChange(st: Store, st': Store, req: Request, now: nat, q: string)
    requires IsChange(req) && ChangeStores(st, st', req, now) && q != req.path
    ensures SamePath(st, st', q)
  {
    hide MetaKey, VersionKey;
    OtherPathKeys(req.path, req.version, q);
  }

  /**
   A version soft-deleted at a time after the epoch is refused as such, by number and as the latest;
   deleted at time 0 it is not deleted at all.  A destroyed version stays refused as destroyed.
   */
  lemma SoftDeleteAnswers(st: Store, path: string, version: nat, now: nat, later: nat, read: nat)
    requires Shaped(st) && RefStep(st, SoftDelete(path, version), now).1 == Done && Target(st, path, read) == version
    ensures var st' := RefStep(st, SoftDelete(path, version), now).0;
            var r := RefStep(st', ReadVersion(path, read), later).1;
            && Lists(st, path, version)
            && (StateOf(st, path, version).destroyed ==> r == Failed(Destroyed))
            && (!StateOf(st, path, version).destroyed ==> (r == Failed(SoftDeleted) <==> now > 0))
  {
    hide MetaKey, VersionKey, Shaped, RefStep;
    ChangeExact(st, SoftDelete(path, version), now);
    RefStepOk(st, SoftDelete(path, version), now, {});
    ReadExact(RefStep(st, SoftDelete(path, version), now).0, path, read, later);
  }

  /** An undeleted version is answered with its payload, or reported missing if that is gone; never as deleted. */
  lemma UndeleteAnswers(st: Store, path: string, version: nat, now: nat, later: nat, read: nat)
    requires Shaped(st) && RefStep(st, Undelete(path, version), now).1 == Done && Target(st, path, read) == version
    ensures var st' := RefStep(st, Undelete(path, version), now).0;
            Lists(st, path, version) &&
            var state := StateOf(st, path, version);
            RefStep(st', ReadVersion(path, read), later).1 ==
            if HasPayload(st, path, version)
            then Data(st[VersionKey(path, version)].payload, VersionState(state.createdMs, 0, state.id, false))
            else Failed(StorageError)
  {
    hide MetaKey, VersionKey, Shaped, RefStep;
    ChangeExact(st, Undelete(path, version), now);
    RefStepOk(st, Undelete(path, version), now, {});
    KeysDisjoint(path, path, version);
    var st' := RefStep(st, Undelete(path, version), now).0;
    ReadExact(st', path, read, later);
    assert Offered(st', path, version) && Get(st', VersionKey(path, version)) == Get(st, VersionKey(path, version));
    if HasPayload(st, path, version) {
      var p := st[VersionKey(path, version)].payload;
      assert RefStep(st', ReadVersion(path, read), later).1 == Data(p, StateOf(st', path, version));
    }
  }

  /** Undelete takes back a soft delete: the store is the one before. */
  lemma UndeleteInverts(st: Store, path: string, version: nat, now: nat, later: nat)
    requires Shaped(st) && Offered(st, path, version)
    ensures var (st1, r1) := RefStep(st, SoftDelete(path, version), now);
            var (st2, r2) := RefStep(st1, Undelete(path, version), later);
            r1 == Done && r2 == Done && st2 == st
  {
    hide MetaKey, VersionKey, Shaped, RefStep;
    ChangeExact(st, SoftDelete(path, version), now);
    var st1 := RefStep(st, SoftDelete(path, version), now).0;
    RefStepOk(st, SoftDelete(path, version), now, {});
    ChangeExact(st1, Undelete(path, version), later);
    var st2 := RefStep(st1, Undelete(path, version), later).0;
    RefStepOk(st1, Undelete(path, version), later, {});
    ShapedMeta(st, path);
    ShapedMeta(st2, path);
    assert Stored(st2, path).versions == Stored(st, path).versions;
    SameStores(st2, st);
  }

  lemma SameStores(a: Store, b: Store)
    requires forall k :: Get(a, k) == Get(b, k)
    ensures a == b
  {
    assert forall k :: k in a ==> Get(a, k) == Get(b, k);
    assert forall k :: k in b ==> Get(a, k) == Get(b, k);
  }

  /** A destroyed version is refused as such, and its payload is gone. */
  lemma DestroyAnswers(st: Store, path: string, version: nat, now: nat, later: nat, read: nat)
    requires Shaped(st) && RefStep(st, DestroyVersion(path, version), now).1 == Done && Target(st, path, read) == version
    ensures var st' := RefStep(st, DestroyVersion(path, version), now).0;
            && RefStep(st', ReadVersion(path, read), later).1 == Failed(Destroyed)
            && VersionKey(path, version) !in st'
  {
    hide MetaKey, VersionKey, Shaped, RefStep;
    ChangeExact(st, DestroyVersion(path, version), now);
    RefStepOk(st, DestroyVersion(path, version), now, {});
    ReadExact(RefStep(st, DestroyVersion(path, version), now).0, path, read, later);
  }

  // ---------------------------------------------------------------------------
  // Answers from the history alone

  /** A version as the acknowledged requests made it. */
  datatype Version = Version(payload: Payload, state: VersionState)

  /** What an answered request adds to the history of a path. */
  function Tell(h: seq<Version>, path: string, a: Answer): seq<Version> {
    if a.req.path != path || a.response != Done then h
    else if a.req.PutVersion? then h + [Version(a.req.payload, VersionState(a.now, 0, |h| + 1, false))]
    else if IsChange(a.req) && 1 <= a.req.version <= |h| then
      h[a.req.version - 1 := Version(h[a.req.version - 1].payload, Marked(h[a.req.version - 1].state, a.req, a.now))]
    else h
  }

  function Told(h: seq<Version>, path: string, answers: seq<Answer>): seq<Version>
    decreases |answers|
  {
    if answers == [] then h else Told(Tell(h, path, answers[0]), path, answers[1..])
  }

  /** The answer to a version read that the history determines. */
  function FromHistory(h: seq<Version>, version: nat): Response {
    var v := if version == 0 then |h| else version;
    if h == [] then Failed(NotFound)
    else if v > |h| then Failed(InvalidVersion(version))
    else if h[v - 1].state.destroyed then Failed(Destroyed)
    else if h[v - 1].state.deletionMs > 0 then Failed(SoftDeleted)
    else Data(h[v - 1].payload, h[v - 1].state)
  }

  /** The store holds what the history says: every state, and every payload but the destroyed ones. */
  ghost predicate Matches(st: Store, path: string, h: seq<Version>) {
    var vs := Stored(st, path).versions;
    && (MetaKey(path) in st <==> h != []) && |vs| == |h|
    && (forall i :: 0 <= i < |h| ==> vs[i] == h[i].state)
    && forall v: nat :: 1 <= v <= |h| && !h[v - 1].state.destroyed ==>
         Get(st, VersionKey(path, v)) == Some(PayloadValue(h[v - 1].payload))
  }

  lemma NoHistory(path: string)
    ensures Shaped(map[]) && Matches(map[], path, [])
  {
  }

  lemma HistoryReads(st: Store, path: string, h: seq<Version>, version: nat, now: nat)
    requires Shaped(st) && Matches(st, path, h)
    ensures RefStep(st, ReadVersion(path, version), now).1 == FromHistory(h, version)
  {
    hide MetaKey, VersionKey, Shaped, RefStep;
    ReadExact(st, path, version, now);
    ShapedMeta(st, path);
    var v := Target(st, path, version);
    if Offered(st, path, v) {
      assert RefStep(st, ReadVersion(path, version), now).1 == Data(h[v - 1].payload, StateOf(st, path, v));
    }
  }

  lemma HistoryStep(st: Store, path: string, h: seq<Version>, a: Answer)
    requires Shaped(st) && Matches(st, path, h) && RefStep(st, a.req, a.now).1 == a.response
    ensures Matches(RefStep(st, a.req, a.now).0, path, Tell(h, path, a))
  {
    hide MetaKey, VersionKey, Shaped, RefStep, Matches, PutStores, ChangeStores, Tell;
    var st' := RefStep(st, a.req, a.now).0;
    if a.req.PutVersion? {
      PutExact(st, a.req.path, a.req.payload, a.req.cas, a.now);
      if a.response == Done { PutTells(st, st', path, h, a); } else { NothingTold(h, path, a); }
    } else if IsChange(a.req) {
      ChangeExact(st, a.req, a.now);
      if a.response == Done { ChangeTells(st, st', path, h, a); } else { NothingTold(h, path, a); }
    } else {
      ReadsStay(st, a.req, a.now);
      NothingTold(h, path, a);
    }
  }

  lemma ReadsStay(st: Store, req: Request, now: nat)
    requires !req.PutVersion? && !IsChange(req)
    ensures RefStep(st, req, now).0 == st && RefStep(st, req, now).1 != Done
  {
  }

  lemma NothingTold(h: seq<Version>, path: string, a: Answer)
    requires a.response != Done
    ensures Tell(h, path, a) == h
  {
  }

  lemma SamePathMatches(st: Store, st': Store, path: string, h: seq<Version>)
    requires Matches(st, path, h) && SamePath(st, st', path)
    ensures Matches(st', path, h)
  {
    hide MetaKey, VersionKey;
  }

  lemma PutTells(st: Store, st': Store, path: string, h: seq<Version>, a: Answer)
    requires Shaped(st) && Matches(st, path, h) && a.req.PutVersion? && a.response == Done
    requires PutStores(st, st', a.req.path, a.req.payload, a.now)
    ensures Matches(st', path, Tell(h, path, a))
  {
    hide MetaKey, VersionKey, Shaped;
    ShapedMeta(st, path);
    if a.req.path != path {
      OtherPath(st, st', a.req.path, a.req.payload, a.now, path);
      SamePathMatches(st, st', path, h);
    } else {
      var n := |h| + 1;
      var vs, vs' := Stored(st, path).versions, Stored(st', path).versions;
      assert forall i :: 0 <= i < |h| ==> vs'[i] == vs'[..n - 1][i];
      forall v: nat | 1 <= v < n ensures Get(st', VersionKey(path, v)) == Get(st, VersionKey(path, v)) {
        KeysDisjoint(path, path, v);
        if VersionKey(path, v) == VersionKey(path, n) { VersionKeyInjective(path, v, path, n); }
      }
    }
  }

  lemma ChangeTells(st: Store, st': Store, path: string, h: seq<Version>, a: Answer)
    requires Shaped(st) && Matches(st, path, h) && IsChange(a.req) && a.response == Done
    requires ChangeStores(st, st', a.req, a.now)
    ensures Matches(st', path, Tell(h, path, a))
  {
    hide MetaKey, VersionKey, Shaped;
    if a.req.path != path {
      OtherPathChange(st, st', a.req, a.now, path);
      SamePathMatches(st, st', path, h);
    } else {
      forall v: nat | 1 <= v <= |h| && !(a.req.DestroyVersion? && v == a.req.version)
        ensures Get(st', VersionKey(path, v)) == Get(st, VersionKey(path, v))
      {
        KeysDisjoint(path, path, v);
        if VersionKey(path, v) == VersionKey(path, a.req.version) { VersionKeyInjective(path, v, path, a.req.version); }
      }
    }
  }

  /** Every version read of the answers is the one the history before it determines. */
  ghost predicate ToldReads(h: seq<Version>, path: string, answers: seq<Answer>) {
    forall i :: 0 <= i < |answers| && answers[i].req.ReadVersion? && answers[i].req.path == path ==>
      answers[i].response == FromHistory(Told(h, path, answers[..i]), answers[i].req.version)
  }

  /**
   Over any run a version read is answered from the acknowledged requests before it: the payload and time
   of the put that made the version, unless a later request deleted or destroyed it.
   */
  lemma {:induction false} HistoryAnswers(st: Store, answers: seq<Answer>, st': Store, path: string, h: seq<Version>)
    requires Shaped(st) && Replays(st, answers, st') && Matches(st, path, h)
    ensures Matches(st', path, Told(h, path, answers)) && ToldReads(h, path, answers)
    decreases |answers|
  {
    hide Shaped, RefStep, Matches, Tell, FromHistory;
    if answers != [] {
      var a := answers[0];
      HistoryStep(st, path, h, a);
      RefStepOk(st, a.req, a.now, {});
      var h' := Tell(h, path, a);
      HistoryAnswers(RefStep(st, a.req, a.now).0, answers[1..], st', path, h');
      forall i | 0 <= i < |answers| && answers[i].req.ReadVersion? && answers[i].req.path == path
        ensures answers[i].response == FromHistory(Told(h, path, answers[..i]), answers[i].req.version)
      {
        if i == 0 {
          HistoryReads(st, path, h, a.req.version, a.now);
        } else {
          assert answers[..i][1..] == answers[1..][..i - 1] && answers[i] == answers[1..][i - 1];
        }
      }
    }
  }

  /** The same of the engine: every accepted version read of a kept run, from an empty disk or any other. */
  lemma RunAnswers(s: Engine, events: seq<Event>, path: string, h: seq<Version>)
    requires Good(s) && AllKept(s, events) && Matches(Logical(s), path, h)
    ensures var answers := Accepted(Run(s, events).1); ToldReads(h, path, answers)
  {
    hide Good, AllKept, Run, Logical, Replays, Matches, ToldReads, Accepted, Same;
    GoodShape(s);
    var st' := RunRefines(s, events);
    HistoryAnswers(Logical(s), Accepted(Run(s, events).1), st', path, h);
  }

  // ---------------------------------------------------------------------------
  // One request of the engine

  /** Answer and store after a request, in terms of what was stored before it. */
  ghost predicate Means(st: Store, st': Store, req: Request, now: nat, r: Response) {
    match req
    case ReadMetadata(path) =>
      st' == st && r == if MetaKey(path) in st then Metadata(Stored(st, path)) else Failed(NotFound)
    case ReadVersion(path, version) => st' == st && ReadAnswer(st, path, version, r)
    case PutVersion(path, payload, cas) => PutAnswer(st, st', path, payload, cas, now, r)
    case _ => ChangeAnswer(st, st', req, now, r)
  }

  lemma RefMeans(st: Store, req: Request, now: nat)
    requires Shaped(st)
    ensures Means(st, RefStep(st, req, now).0, req, now, RefStep(st, req, now).1)
  {
    hide Shaped, RefStep, MetaKey, ReadAnswer, PutAnswer, ChangeAnswer;
    match req
    case ReadMetadata(path) => MetadataExact(st, path, now);
    case ReadVersion(path, version) => ReadExact(st, path, version, now);
    case PutVersion(path, payload, cas) => PutExact(st, path, payload, cas, now);
    case _ => ChangeExact(st, req, now);
  }

  /** A kept request that was not turned away means this for the logical store. */
  lemma StepMeans(s: Engine, req: Request, env: Env)
    requires Good(s) && Kept(s, req, env)
    ensures var (s', r) := Step(s, req, env);
            r != Failed(QueueFull) ==> Means(Logical(s), Logical(s'), req, env.now, r)
  {
    hide Good, Kept, Logical, Means, Step, RefStep, Same;
    GoodShape(s);
    StepRefines(s, req, env);
    RefMeans(Logical(s), req, env.now);
  }
}
