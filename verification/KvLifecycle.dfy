/** The version lifecycle, proved of the cacheless engine that every kept run refines. */
module KvLifecycle {
  import opened Options
  import opened Maps
  import opened KvModel
  import opened KvTheorems
  import opened KvRuns

  function Cur(st: Store, path: string): nat {
    if MetaKey(path) in st && st[MetaKey(path)].MetaValue? then st[MetaKey(path)].meta.current else 0
  }

  function Cur1(read: Response): nat {
    if read.Metadata? then read.meta.current else 0
  }

  /** Every request keeps the numbering and opens no gap. */
  lemma RefStepOk(st: Store, req: Request, now: nat, gaps: set<(string, nat)>)
    requires Shaped(st)
    ensures var st' := RefStep(st, req, now).0;
            Shaped(st') && (Complete(st, gaps) ==> Complete(st', gaps))
  {
    hide MetaKey, VersionKey, Complete, ChangeVersion, Shaped, WithNewVersion;
    MetaOrDefaultOk(st, req.path);
    var r := RefMeta(st, req.path);
    if req.PutVersion? {
      var m := if r.Failed? then DEFAULT_METADATA else r.meta;
      if !(req.cas.Some? && m.current != req.cas.value) { RefPutOk(st, req.path, req.payload, m, now, gaps); }
    } else if !req.ReadMetadata? && !req.ReadVersion? && r.Metadata? && ChangeVersion(r.meta, req, now).Changed? {
      RefChangeOk(st, r.meta, req, now, gaps);
    }
  }

  lemma RefPutOk(st: Store, path: string, payload: Payload, m: KeyMetadata, now: nat, gaps: set<(string, nat)>)
    requires Shaped(st) && Numbered(m)
    requires MetaKey(path) in st ==> st[MetaKey(path)] == MetaValue(m)
    requires MetaKey(path) !in st ==> m == DEFAULT_METADATA
    ensures var k := VersionKey(path, m.current + 1);
            var st' := st[k := PayloadValue(payload)][MetaKey(path) := MetaValue(WithNewVersion(m, now))];
            Shaped(st') && (Complete(st, gaps) ==> Complete(st', gaps))
  {
    hide Shaped, PathsIn, Dead, Fits;
    var v := m.current + 1;
    var op := Put(VersionKey(path, v), PayloadValue(payload));
    var mid, m' := ApplyOp(st, op), WithNewVersion(m, now);
    PayloadWrite(st, op, path, v);
    NewVersionFits(st, path, v, payload, m, now);
    PutMetaOk(mid, path, m');
    if Complete(st, gaps) {
      PayloadGaps(st, op, path, v, gaps);
      forall i | 0 <= i < |m'.versions| && !m'.versions[i].destroyed
        ensures HasPayload(mid, path, i + 1) || (path, i + 1) in gaps
      {
        if i < |m.versions| {
          assert Live(st, path, i + 1);
          assert !Gap(mid, path, i + 1) || (path, i + 1) in gaps;
        }
      }
      MetaGaps(mid, path, m', gaps, gaps);
    }
  }

  lemma RefChangeOk(st: Store, m: KeyMetadata, req: Request, now: nat, gaps: set<(string, nat)>)
    requires req.SoftDelete? || req.Undelete? || req.DestroyVersion?
    requires Shaped(st) && Numbered(m)
    requires MetaKey(req.path) in st && st[MetaKey(req.path)] == MetaValue(m) && ChangeVersion(m, req, now).Changed?
    ensures var mid := if req.DestroyVersion? then st - {VersionKey(req.path, req.version)} else st;
            var st' := mid[MetaKey(req.path) := MetaValue(ChangeVersion(m, req, now).meta)];
            Shaped(st') && (Complete(st, gaps) ==> Complete(st', gaps))
  {
    hide Shaped, PathsIn, Dead, Fits, ChangeVersion;
    var path, v, m' := req.path, req.version, ChangeVersion(m, req, now).meta;
    var op := Delete(VersionKey(path, v));
    var mid := if req.DestroyVersion? then ApplyOp(st, op) else st;
    var some := if req.DestroyVersion? then gaps + {(path, v)} else gaps;
    ChangeExtends(m, req, now);
    PayloadWrite(st, op, path, v);
    if req.DestroyVersion? { DestroyFits(st, path, m, v, now); } else { ChangeFits(st, path, m, req, now); }
    PutMetaOk(mid, path, m');
    if Complete(st, gaps) {
      PayloadGaps(st, op, path, v, gaps);
      forall i | 0 <= i < |m'.versions| && !m'.versions[i].destroyed
        ensures HasPayload(mid, path, i + 1) || (path, i + 1) in gaps
      {
        assert Live(st, path, i + 1);
        assert !Gap(mid, path, i + 1) || (path, i + 1) in some;
      }
      MetaGaps(mid, path, m', some, gaps);
    }
  }

  /** A read reports a missing payload exactly when it is let through to a gap. */
  lemma MissingIffGap(st: Store, path: string, version: nat, now: nat)
    requires Shaped(st)
    ensures var r := RefMeta(st, path);
            RefStep(st, ReadVersion(path, version), now).1 == Failed(StorageError) <==>
            && r.Metadata? && Readable(r.meta, version).Granted?
            && Gap(st, path, Readable(r.meta, version).state.id)
  {
    MetaOrDefaultOk(st, path);
    var r := RefMeta(st, path);
    if r.Metadata? && Readable(r.meta, version).Granted? {
      GrantedIsLive(st, path, version);
    }
  }

  predicate IsPut(req: Request, r: Response, path: string) {
    req.PutVersion? && r.Done? && req.path == path
  }

  /** The version counter counts exactly the successful puts. */
  lemma RefCur(st: Store, req: Request, now: nat, path: string)
    requires Shaped(st)
    ensures var (st', r) := RefStep(st, req, now);
            Cur(st', path) == Cur(st, path) + (if IsPut(req, r, path) then 1 else 0)
  {
    hide MetaKey, VersionKey, Shaped, PathsIn, Find, Numbered;
    MetaOrDefaultOk(st, req.path);
    var (st', r) := RefStep(st, req, now);
    var read := RefMeta(st, req.path);
    if r.Done? {
      if MetaKey(path) == MetaKey(req.path) { MetaKeyInjective(path, req.path); }
      if req.PutVersion? {
        KeysDisjoint(path, req.path, Cur1(read) + 1);
      } else if req.DestroyVersion? {
        KeysDisjoint(path, req.path, req.version);
      }
    }
  }

  /** A destroyed version of a path. */
  predicate IsDestroyed(st: Store, path: string, version: nat) {
    && MetaKey(path) in st && st[MetaKey(path)].MetaValue?
    && var vs := st[MetaKey(path)].meta.versions;
       1 <= version <= |vs| && vs[version - 1].destroyed
  }

  lemma RefKeepsDestroyed(st: Store, req: Request, now: nat, path: string, version: nat)
    requires Shaped(st) && IsDestroyed(st, path, version)
    ensures IsDestroyed(RefStep(st, req, now).0, path, version)
  {
    hide MetaKey, VersionKey, Shaped, PathsIn, Find;
    MetaOrDefaultOk(st, req.path);
    var (st', r) := RefStep(st, req, now);
    var read := RefMeta(st, req.path);
    if r.Done? {
      if MetaKey(path) == MetaKey(req.path) { MetaKeyInjective(path, req.path); }
      if req.PutVersion? {
        KeysDisjoint(path, req.path, Cur1(read) + 1);
      } else {
        if req.DestroyVersion? { KeysDisjoint(path, req.path, req.version); }
      }
    }
  }

  /** A destroyed version is refused to readers, by number or as the latest, and to undelete. */
  lemma DestroyedUnreadable(st: Store, path: string, version: nat, now: nat)
    requires Shaped(st) && IsDestroyed(st, path, version)
    ensures RefStep(st, ReadVersion(path, version), now) == (st, Failed(Error.Destroyed))
    ensures version == Cur(st, path) ==> RefStep(st, ReadVersion(path, 0), now) == (st, Failed(Error.Destroyed))
    ensures RefStep(st, Undelete(path, version), now) == (st, Failed(Error.Destroyed))
  {
    assert MetaOk(st, path);
  }

  function CountPuts(answers: seq<Answer>, path: string): nat
    decreases |answers|
  {
    if answers == [] then 0
    else (if IsPut(answers[0].req, answers[0].response, path) then 1 else 0) + CountPuts(answers[1..], path)
  }

  /**
   Over any run version ids stay exactly 1..current, the counter counts the successful puts, and
   destroyed versions stay destroyed.
   */
  lemma {:induction false} Lifecycle(st: Store, answers: seq<Answer>, st': Store, path: string)
    requires Shaped(st) && Replays(st, answers, st')
    ensures Shaped(st')
    ensures Cur(st', path) == Cur(st, path) + CountPuts(answers, path)
    ensures forall version: nat :: IsDestroyed(st, path, version) ==> IsDestroyed(st', path, version)
    decreases |answers|
  {
    hide Shaped, RefStep, Cur, IsDestroyed, IsPut;
    if answers != [] {
      var a := answers[0];
      var mid := RefStep(st, a.req, a.now).0;
      RefStepOk(st, a.req, a.now, {});
      RefCur(st, a.req, a.now, path);
      forall version: nat | IsDestroyed(st, path, version) ensures IsDestroyed(mid, path, version) {
        RefKeepsDestroyed(st, a.req, a.now, path, version);
      }
      Lifecycle(mid, answers[1..], st', path);
    }
  }

  /** A put that names the version it expects succeeds exactly on that version. */
  lemma CasExact(st: Store, path: string, payload: Payload, expected: nat, now: nat)
    requires Shaped(st)
    ensures RefStep(st, PutVersion(path, payload, Some(expected)), now).1.Done? <==> Cur(st, path) == expected
  {
    hide MetaKey, VersionKey, Shaped, Numbered;
    MetaOrDefaultOk(st, path);
  }

  /** In one run at most one put per path and expected version succeeds. */
  lemma {:induction false} CasAtMostOnce(st: Store, answers: seq<Answer>, st': Store, i: nat, j: nat, path: string, expected: nat)
    requires Shaped(st) && Replays(st, answers, st') && i < j < |answers|
    requires forall k :: k == i || k == j ==>
               answers[k].req.PutVersion? && answers[k].req.path == path && answers[k].req.cas == Some(expected)
    ensures !(answers[i].response.Done? && answers[j].response.Done?)
    decreases |answers|
  {
    hide Shaped, RefStep, Cur;
    var a := answers[0];
    var mid := RefStep(st, a.req, a.now).0;
    RefStepOk(st, a.req, a.now, {});
    if i > 0 {
      CasAtMostOnce(mid, answers[1..], st', i - 1, j - 1, path, expected);
    } else if a.response.Done? {
      CasExact(st, path, a.req.payload, expected, a.now);
      RefCur(st, a.req, a.now, path);
      CasTooLate(mid, answers[1..], st', j - 1, path, expected);
    }
  }

  lemma {:induction false} CasTooLate(st: Store, answers: seq<Answer>, st': Store, j: nat, path: string, expected: nat)
    requires Shaped(st) && Replays(st, answers, st') && j < |answers| && Cur(st, path) > expected
    requires answers[j].req.PutVersion? && answers[j].req.path == path && answers[j].req.cas == Some(expected)
    ensures !answers[j].response.Done?
    decreases |answers|
  {
    hide Shaped, RefStep, Cur;
    var a := answers[0];
    RefStepOk(st, a.req, a.now, {});
    RefCur(st, a.req, a.now, path);
    if j == 0 {
      CasExact(st, path, a.req.payload, expected, a.now);
    } else {
      CasTooLate(RefStep(st, a.req, a.now).0, answers[1..], st', j - 1, path, expected);
    }
  }

  // ---------------------------------------------------------------------------
  // The same of the engine's own answers

  lemma SameCur(a: Store, b: Store, path: string)
    requires Same(a, b)
    ensures Cur(a, path) == Cur(b, path)
  {
    SameAt(a, b, path);
  }

  lemma SameDestroyed(a: Store, b: Store, path: string, version: nat)
    requires Same(a, b)
    ensures IsDestroyed(a, path, version) <==> IsDestroyed(b, path, version)
  {
    SameAt(a, b, path);
  }

  /** The puts to a path that named `expected` and succeeded. */
  function CountCas(answers: seq<Answer>, path: string, expected: nat): nat
    decreases |answers|
  {
    if answers == [] then 0
    else
      (if IsPut(answers[0].req, answers[0].response, path) && answers[0].req.cas == Some(expected) then 1 else 0)
      + CountCas(answers[1..], path, expected)
  }

  lemma {:induction false} CasCounted(st: Store, answers: seq<Answer>, st': Store, path: string, expected: nat)
    requires Shaped(st) && Replays(st, answers, st')
    ensures CountCas(answers, path, expected) <= if Cur(st, path) <= expected then 1 else 0
    decreases |answers|
  {
    hide Shaped, RefStep, Cur;
    if answers != [] {
      var a := answers[0];
      RefStepOk(st, a.req, a.now, {});
      RefCur(st, a.req, a.now, path);
      CasCounted(RefStep(st, a.req, a.now).0, answers[1..], st', path, expected);
      if IsPut(a.req, a.response, path) && a.req.cas == Some(expected) {
        CasExact(st, path, a.req.payload, expected, a.now);
      }
    }
  }

  /** Requests turned away by a full queue are no successful puts. */
  lemma {:induction false} AcceptedCounts(answers: seq<Answer>, path: string, expected: nat)
    ensures CountPuts(Accepted(answers), path) == CountPuts(answers, path)
    ensures CountCas(Accepted(answers), path, expected) == CountCas(answers, path, expected)
    decreases |answers|
  {
    if answers != [] {
      AcceptedCounts(answers[1..], path, expected);
      if answers[0].response != Failed(QueueFull) {
        assert Accepted(answers)[1..] == Accepted(answers[1..]);
      } else {
        assert Accepted(answers) == Accepted(answers[1..]);
      }
    }
  }

  /**
   Over any kept run of the engine itself, requests turned away included: the version counter grows by
   exactly the puts acknowledged, at most one put per expected version is acknowledged, and what was
   destroyed stays destroyed.
   */
  lemma RunLifecycle(s: Engine, events: seq<Event>, path: string, expected: nat)
    requires Good(s) && AllKept(s, events)
    ensures var (s', answers) := Run(s, events);
            && Cur(Logical(s'), path) == Cur(Logical(s), path) + CountPuts(answers, path)
            && CountCas(answers, path, expected) <= (if Cur(Logical(s), path) <= expected then 1 else 0)
            && forall version: nat :: IsDestroyed(Logical(s), path, version) ==> IsDestroyed(Logical(s'), path, version)
  {
    hide Good, AllKept, Run, Logical, Replays, Same, Shaped, Cur, IsDestroyed, CountPuts, CountCas, Accepted;
    var (s', answers) := Run(s, events);
    var st' := RunRefines(s, events);
    GoodShape(s);
    Lifecycle(Logical(s), Accepted(answers), st', path);
    CasCounted(Logical(s), Accepted(answers), st', path, expected);
    AcceptedCounts(answers, path, expected);
    SameCur(Logical(s'), st', path);
    forall version: nat | IsDestroyed(Logical(s), path, version) ensures IsDestroyed(Logical(s'), path, version) {
      SameDestroyed(Logical(s'), st', path, version);
    }
  }

  /** A soft delete succeeds exactly on an existing version number. */
  lemma SoftDeleteExact(st: Store, path: string, version: nat, now: nat)
    requires Shaped(st)
    ensures RefStep(st, SoftDelete(path, version), now).1.Done? <==> 1 <= version <= Cur(st, path)
  {
    hide MetaKey, VersionKey, Shaped;
    MetaOrDefaultOk(st, path);
    if RefMeta(st, path).Metadata? {
      var m := RefMeta(st, path).meta;
      if 1 <= version <= m.current { assert m.versions[version - 1].id == version; }
    }
  }

  /** The DELETE handler asks for version 0, which never exists: it always fails and changes nothing. */
  lemma DeleteLatestNeverWorks(st: Store, path: string, now: nat)
    requires Shaped(st)
    ensures RefStep(st, SoftDelete(path, 0), now) ==
            (st, if MetaKey(path) in st then Failed(InvalidVersion(0)) else Failed(NotFound))
  {
    hide VersionKey, Shaped;
    MetaOrDefaultOk(st, path);
  }
}
