/** What the cuckoo cache keeps and promises, proved about `CuckooModel`. */
module CuckooTheorems {
  import opened Options
  import opened Maps
  import opened CuckooModel
  import Arithmetic

  // ---------------------------------------------------------------------------
  // Sets of storage indices and the map they denote

  function Indices(t: seq<Slot>): set<nat> {
    set p | 0 <= p < |t| && Full(t[p]) :: t[p].index
  }

  function Slotted(T: Table): set<nat> {
    Indices(T.t1) + Indices(T.t2)
  }

  function FreeSet(T: Table): set<nat> {
    set i | 0 <= i < |T.free| :: T.free[i]
  }

  /** Indices that are in no slot and not on the free list. */
  function Orphans(T: Table): set<nat> {
    set i: nat | i < T.used && i !in Slotted(T) && i !in FreeSet(T)
  }

  predicate KeysDistinct(S: set<nat>, storage: seq<Entry>) {
    && (forall i :: i in S ==> i < |storage|)
    && (forall i, j :: i in S && j in S && i != j ==> storage[i].key != storage[j].key)
  }

  function KeysOf(S: set<nat>, storage: seq<Entry>): set<string>
    requires forall i :: i in S ==> i < |storage|
  {
    set i | i in S :: storage[i].key
  }

  ghost function Holder(S: set<nat>, storage: seq<Entry>, k: string): (i: nat)
    requires KeysDistinct(S, storage) && k in KeysOf(S, storage)
    ensures i in S && storage[i].key == k
    ensures forall j :: j in S && storage[j].key == k ==> j == i
  {
    var i :| i in S && storage[i].key == k;
    i
  }

  /** The map denoted by the live storage indices. */
  ghost function ViewOf(S: set<nat>, storage: seq<Entry>): (m: map<string, Bytes>)
    requires KeysDistinct(S, storage)
    ensures m.Keys == KeysOf(S, storage)
    ensures forall i :: i in S ==> storage[i].key in m && m[storage[i].key] == storage[i].payload
  {
    map k | k in KeysOf(S, storage) :: storage[Holder(S, storage, k)].payload
  }

  lemma ViewAdd(S: set<nat>, storage: seq<Entry>, i: nat)
    requires i < |storage| && i !in S && KeysDistinct(S, storage) && storage[i].key !in KeysOf(S, storage)
    ensures KeysDistinct(S + {i}, storage)
    ensures ViewOf(S + {i}, storage) == ViewOf(S, storage)[storage[i].key := storage[i].payload]
  {
    var R := S + {i};
    forall j | j in S ensures storage[j].key in KeysOf(S, storage) {}
    assert KeysDistinct(R, storage);
    var m, n := ViewOf(R, storage), ViewOf(S, storage)[storage[i].key := storage[i].payload];
    assert i in R;
    assert m.Keys == n.Keys;
    forall k | k in m ensures m[k] == n[k] {
      var j := Holder(R, storage, k);
      assert j in R && storage[j].key == k;
    }
  }

  lemma ViewDrop(S: set<nat>, storage: seq<Entry>, i: nat)
    requires i in S && KeysDistinct(S, storage)
    ensures KeysDistinct(S - {i}, storage)
    ensures ViewOf(S - {i}, storage) == ViewOf(S, storage) - {storage[i].key}
  {
    var R := S - {i};
    var m, n := ViewOf(R, storage), ViewOf(S, storage) - {storage[i].key};
    forall k | k in n ensures k in m {
      var j := Holder(S, storage, k);
      assert j in R;
    }
    forall k | k in m ensures k in n && m[k] == n[k] {
      var j := Holder(R, storage, k);
      assert j in S;
    }
  }

  lemma ViewUpdate(S: set<nat>, storage: seq<Entry>, storage': seq<Entry>, i: nat)
    requires i in S && KeysDistinct(S, storage) && |storage'| == |storage|
    requires storage'[i].key == storage[i].key
    requires forall j :: j in S && j != i ==> storage'[j] == storage[j]
    ensures KeysDistinct(S, storage')
    ensures ViewOf(S, storage') == ViewOf(S, storage)[storage[i].key := storage'[i].payload]
  {
    var k := storage[i].key;
    var m, n := ViewOf(S, storage'), ViewOf(S, storage)[k := storage'[i].payload];
    assert k in KeysOf(S, storage);
    assert m.Keys == n.Keys;
    forall l | l in m ensures m[l] == n[l] {
      var j := Holder(S, storage, l);
      assert storage'[j].key == l;
    }
  }

  // ---------------------------------------------------------------------------
  // The invariant

  /** Every full slot carries its key's tag and lies in the bucket `h` picks for the key. */
  predicate Homed(t: seq<Slot>, storage: seq<Entry>, H: Hashes, h: string -> nat, size: nat)
    requires InRange(t, |storage|) && size >= 1
  {
    forall p :: 0 <= p < |t| && Full(t[p]) ==> SlotHomed(t[p], p, storage, H, h, size)
  }

  predicate SlotHomed(s: Slot, p: nat, storage: seq<Entry>, H: Hashes, h: string -> nat, size: nat)
    requires Full(s) && s.index < |storage| && size >= 1
  {
    var key := storage[s.index].key;
    s.tag == Tag(H.h1(key)) && Home(h(key), size) <= p < Home(h(key), size) + 8
  }

  predicate Once(t: seq<Slot>) {
    forall p, q :: 0 <= p < q < |t| && Full(t[p]) && Full(t[q]) ==> t[p].index != t[q].index
  }

  predicate Valid(T: Table, H: Hashes) {
    Shape(T) && Accounted(T, H)
  }

  /** Slotted once, on the free list once, or neither; slotted keys distinct, tagged and at home. */
  predicate Accounted(T: Table, H: Hashes)
    requires Shape(T)
  {
    && Homed(T.t1, T.storage, H, H.h1, T.size)
    && Homed(T.t2, T.storage, H, H.h2, T.size)
    && Once(T.t1) && Once(T.t2)
    && Indices(T.t1) !! Indices(T.t2)
    && KeysDistinct(Slotted(T), T.storage)
    && (forall i, j :: 0 <= i < j < |T.free| ==> T.free[i] != T.free[j])
    && FreeSet(T) !! Slotted(T)
  }

  /** What `lookup` can see. */
  ghost function View(T: Table, H: Hashes): map<string, Bytes>
    requires Valid(T, H)
  {
    ViewOf(Slotted(T), T.storage)
  }

  /** A valid table and one more entry, in storage but in no slot, that belongs in it. */
  predicate Floating(T: Table, H: Hashes, cur: Slot) {
    && Valid(T, H)
    && cur.index < T.used
    && cur.index !in Slotted(T) && cur.index !in FreeSet(T)
    && cur.tag == Tag(H.h1(T.storage[cur.index].key))
    && T.storage[cur.index].key !in KeysOf(Slotted(T), T.storage)
  }

  lemma IndicesAt(t: seq<Slot>)
    ensures forall p :: 0 <= p < |t| && Full(t[p]) ==> t[p].index in Indices(t)
  {
  }

  lemma IndicesFill(t: seq<Slot>, p: nat, s: Slot)
    requires p < |t| && !Full(t[p]) && Full(s)
    ensures Indices(t[p := s]) == Indices(t) + {s.index}
  {
    var u := t[p := s];
    assert u[p] == s;
    forall i | i in Indices(t) ensures i in Indices(u) {
      var q :| 0 <= q < |t| && Full(t[q]) && t[q].index == i;
      assert u[q] == t[q];
    }
    forall i | i in Indices(u) ensures i in Indices(t) + {s.index} {
      var q :| 0 <= q < |u| && Full(u[q]) && u[q].index == i;
    }
  }

  lemma IndicesClear(t: seq<Slot>, p: nat)
    requires p < |t| && Full(t[p]) && Once(t)
    ensures Indices(t[p := EMPTY]) == Indices(t) - {t[p].index}
  {
    var u := t[p := EMPTY];
    forall i | i in Indices(t) && i != t[p].index ensures i in Indices(u) {
      var q :| 0 <= q < |t| && Full(t[q]) && t[q].index == i;
      assert u[q] == t[q];
    }
    forall i | i in Indices(u) ensures i in Indices(t) && i != t[p].index {
      var q :| 0 <= q < |u| && Full(u[q]) && u[q].index == i;
    }
  }

  lemma IndicesSwap(t: seq<Slot>, p: nat, s: Slot)
    requires p < |t| && Full(t[p]) && Once(t) && Full(s)
    ensures Indices(t[p := s]) == Indices(t) - {t[p].index} + {s.index}
  {
    IndicesClear(t, p);
    IndicesFill(t[p := EMPTY], p, s);
    assert t[p := EMPTY][p := s] == t[p := s];
  }

  // ---------------------------------------------------------------------------
  // Displacement

  lemma PlaceFirst(T: Table, H: Hashes, cur: Slot, p: nat)
    requires Floating(T, H, cur) && p < |T.t1| && !Full(T.t1[p])
    requires var b := Home(H.h1(T.storage[cur.index].key), T.size); b <= p < b + 8
    ensures var T' := T.(t1 := T.t1[p := cur]);
            Valid(T', H) && Slotted(T') == Slotted(T) + {cur.index}
  {
    IndicesFill(T.t1, p, cur);
  }

  lemma PlaceSecond(T: Table, H: Hashes, cur: Slot, p: nat)
    requires Floating(T, H, cur) && p < |T.t2| && !Full(T.t2[p])
    requires var b := Home(H.h2(T.storage[cur.index].key), T.size); b <= p < b + 8
    ensures var T' := T.(t2 := T.t2[p := cur]);
            Valid(T', H) && Slotted(T') == Slotted(T) + {cur.index}
  {
    IndicesFill(T.t2, p, cur);
  }

  lemma KeyGone(S: set<nat>, storage: seq<Entry>, i: nat)
    requires i in S && KeysDistinct(S, storage)
    ensures KeysDistinct(S - {i}, storage) && storage[i].key !in KeysOf(S - {i}, storage)
  {
  }

  /** Exchanging one live index for a fresh one. */
  lemma KeysSwap(S: set<nat>, storage: seq<Entry>, out: nat, cur: nat)
    requires KeysDistinct(S, storage) && out in S && cur !in S && cur < |storage|
    requires storage[cur].key !in KeysOf(S, storage)
    ensures KeysDistinct(S - {out} + {cur}, storage)
    ensures storage[out].key !in KeysOf(S - {out} + {cur}, storage)
  {
    var rest := S - {out};
    KeyGone(S, storage, out);
    assert storage[out].key in KeysOf(S, storage);
    assert storage[cur].key !in KeysOf(rest, storage);
    ViewAdd(rest, storage, cur);
  }

  lemma SameHome(g: nat, h: nat, size: nat, p: nat)
    requires size >= 1
    requires Home(g, size) <= p < Home(g, size) + 8 && Home(h, size) <= p < Home(h, size) + 8
    ensures Home(g, size) == Home(h, size)
  {
  }

  lemma KickSlots(T: Table, H: Hashes, cur: Slot, p: nat)
    requires Floating(T, H, cur) && p < |T.t1| && Full(T.t1[p])
    requires var b := Home(H.h1(T.storage[cur.index].key), T.size); b <= p < b + 8
    ensures var t := T.t1[p := cur];
            && InRange(t, T.used)
            && Homed(t, T.storage, H, H.h1, T.size)
            && Once(t)
  {
    IndicesAt(T.t1);
  }

  /** One kick swaps the floating entry with a resident of its first bucket, which stays the bucket. */
  lemma Kick(T: Table, H: Hashes, cur: Slot, p: nat)
    requires Floating(T, H, cur) && p < |T.t1| && Full(T.t1[p])
    requires var b := Home(H.h1(T.storage[cur.index].key), T.size); b <= p < b + 8
    ensures var T', out := T.(t1 := T.t1[p := cur]), T.t1[p];
            && Floating(T', H, out)
            && Slotted(T') + {out.index} == Slotted(T) + {cur.index}
            && Home(H.h1(T.storage[out.index].key), T.size) == Home(H.h1(T.storage[cur.index].key), T.size)
  {
    var T', out := T.(t1 := T.t1[p := cur]), T.t1[p];
    IndicesAt(T.t1);
    IndicesSwap(T.t1, p, cur);
    assert out.index in Slotted(T);
    assert Slotted(T') == Slotted(T) - {out.index} + {cur.index};
    KeysSwap(Slotted(T), T.storage, out.index, cur.index);
    assert SlotHomed(out, p, T.storage, H, H.h1, T.size);
    SameHome(H.h1(T.storage[out.index].key), H.h1(T.storage[cur.index].key), T.size, p);
    KickSlots(T, H, cur, p);
  }

  /** The loop kept the entries in `S`: all of them are in slots, or all but the one it dropped. */
  predicate Sound(T: Table, H: Hashes, S: set<nat>, r: Displaced) {
    && r.table == T.(t1 := r.table.t1, t2 := r.table.t2)
    && (r.Placed? ==> Valid(r.table, H) && Slotted(r.table) == S)
    && (r.Dropped? ==> Floating(r.table, H, r.slot) && Slotted(r.table) + {r.slot.index} == S)
  }

  lemma {:induction false} DisplaceSound(T: Table, H: Hashes, i: nat, cur: Slot, S: set<nat>)
    requires Floating(T, H, cur) && i <= MAX_KICKS && S == Slotted(T) + {cur.index}
    ensures Sound(T, H, S, Displace(T, H, i, cur))
    decreases MAX_KICKS - i
  {
    hide Accounted, Slotted, Home, InRange, FreeSet, KeysOf, NextMove, Tag;
    if i < MAX_KICKS {
      match NextMove(T, H, i, cur)
      case ToFirst(p) => PlaceFirst(T, H, cur, p);
      case ToSecond(p) => PlaceSecond(T, H, cur, p);
      case Swap(p) =>
        Kick(T, H, cur, p);
        DisplaceSound(T.(t1 := T.t1[p := cur]), H, i + 1, T.t1[p], S);
    }
  }

  predicate BucketFull(t: seq<Slot>, b: nat)
    requires b + 8 <= |t|
  {
    forall p :: b <= p < b + 8 ==> Full(t[p])
  }

  function BucketSlots(t: seq<Slot>, b: nat): multiset<Slot>
    requires b + 8 <= |t|
  {
    multiset(t[b..b + 8])
  }

  /** Bucket `b` took `sIn` and gave up `sOut`; otherwise its slots were only permuted. */
  predicate Exchanged(t: seq<Slot>, t': seq<Slot>, b: nat, sIn: Slot, sOut: Slot)
    requires b + 8 <= |t| == |t'|
  {
    BucketSlots(t', b) + multiset{sOut} == BucketSlots(t, b) + multiset{sIn}
  }

  /** The second table gained `s` in a slot that was empty, and nothing else happened to it. */
  predicate FilledOne(t: seq<Slot>, t': seq<Slot>, s: Slot) {
    exists q :: 0 <= q < |t| && !Full(t[q]) && t' == t[q := s]
  }

  /** What a displacement chain may do to the slots. */
  predicate ChainEffect(T: Table, b: nat, cur: Slot, r: Displaced)
    requires b + 8 <= |T.t1|
  {
    && |r.table.t1| == |T.t1| && |r.table.t2| == |T.t2|
    && (forall p :: 0 <= p < |T.t1| && !(b <= p < b + 8) ==> r.table.t1[p] == T.t1[p])
    && if !BucketFull(T.t1, b) then
         && r.Placed? && r.table.t2 == T.t2
         && exists p :: b <= p < b + 8 && !Full(T.t1[p]) && r.table.t1 == T.t1[p := cur]
       else
         && BucketFull(r.table.t1, b)
         && (r.Placed? ==>
               exists s :: s in BucketSlots(T.t1, b) + multiset{cur} && Exchanged(T.t1, r.table.t1, b, cur, s)
                           && FilledOne(T.t2, r.table.t2, s))
         && (r.Dropped? ==> r.table.t2 == T.t2 && Exchanged(T.t1, r.table.t1, b, cur, r.slot))
  }

  /**
   A chain of any length stays in one bucket of the first table, only permutes its entries,
   never displaces an entry of the second table, and fills at most one empty slot.
   */
  lemma {:induction false} DisplaceOneBucket(T: Table, H: Hashes, i: nat, cur: Slot)
    requires Floating(T, H, cur) && i < MAX_KICKS
    ensures ChainEffect(T, Home(H.h1(T.storage[cur.index].key), T.size), cur, Displace(T, H, i, cur))
    decreases MAX_KICKS - i
  {
    hide Accounted, Slotted, ChainEffect, InRange, NextMove, FreeSet, KeysOf;
    var b := Home(H.h1(T.storage[cur.index].key), T.size);
    match NextMove(T, H, i, cur)
    case ToFirst(p) => ChainPlaced(T, H, i, cur);
    case ToSecond(p) => ChainPlaced(T, H, i, cur);
    case Swap(p) =>
      var T', out := T.(t1 := T.t1[p := cur]), T.t1[p];
      Kick(T, H, cur, p);
      if i + 1 == MAX_KICKS {
        ChainEnds(T, b, p, cur);
      } else {
        DisplaceOneBucket(T', H, i + 1, out);
        ChainLink(T, T', b, p, cur, out, Displace(T', H, i + 1, out));
      }
  }

  lemma ChainPlaced(T: Table, H: Hashes, i: nat, cur: Slot)
    requires Floating(T, H, cur) && i < MAX_KICKS && !NextMove(T, H, i, cur).Swap?
    ensures ChainEffect(T, Home(H.h1(T.storage[cur.index].key), T.size), cur, Displace(T, H, i, cur))
  {
    hide Accounted, Slotted;
    var p := NextMove(T, H, i, cur).pos;
    if NextMove(T, H, i, cur).ToSecond? {
      assert FilledOne(T.t2, T.t2[p := cur], cur);
    }
  }

  lemma ChainEnds(T: Table, b: nat, p: nat, cur: Slot)
    requires b + 8 <= |T.t1| && b <= p < b + 8 && Full(cur) && BucketFull(T.t1, b)
    ensures ChainEffect(T, b, cur, Dropped(T.(t1 := T.t1[p := cur]), T.t1[p]))
  {
  }

  lemma ChainLink(T: Table, T': Table, b: nat, v: nat, cur: Slot, out: Slot, r: Displaced)
    requires b + 8 <= |T.t1| && b <= v < b + 8 && Full(cur) && BucketFull(T.t1, b)
    requires out == T.t1[v] && T' == T.(t1 := T.t1[v := cur])
    requires ChainEffect(T', b, out, r)
    ensures ChainEffect(T, b, cur, r)
  {
  }

  // ---------------------------------------------------------------------------
  // The CLOCK sweep

  /** Steps the hand takes from `start` to reach `x` on a ring of `m`. */
  function Dist(start: nat, x: nat, m: nat): int {
    if x >= start then x - start else x + m - start
  }

  /** The entry the hand stands on after `k` steps, `k <= m`. */
  function Circ(start: nat, k: nat, m: nat): int {
    if start + k < m then start + k else start + k - m
  }

  /** `k` is the first unreferenced entry in circular order, or `m` when there is none. */
  predicate FirstClear(storage: seq<Entry>, start: nat, k: nat)
    requires start < |storage| && k <= |storage|
  {
    && (forall x: nat :: x < |storage| && Dist(start, x, |storage|) < k ==> storage[x].referenced)
    && (k < |storage| ==> !storage[Circ(start, k, |storage|)].referenced)
  }

  /** The storage with the bits of the first `k` entries in circular order cleared. */
  predicate Cleared(before: seq<Entry>, after: seq<Entry>, start: nat, k: nat) {
    && |after| == |before|
    && forall x: nat :: x < |before| ==>
         after[x] == if Dist(start, x, |before|) < k then before[x].(referenced := false) else before[x]
  }

  /** One step of the sweep with the hand on `i`, where it also gets by wrapping round. */
  lemma SweepStep(storage: seq<Entry>, i: nat, n: nat)
    requires n > 0 && i < |storage|
    ensures Sweep(storage, i, n) ==
            if storage[i].referenced then Sweep(storage[i := storage[i].(referenced := false)], i + 1, n - 1)
            else (storage, i + 1, Some(i))
    ensures i == 0 ==> Sweep(storage, |storage|, n) == Sweep(storage, 0, n)
  {
  }

  lemma SweepNone(storage: seq<Entry>, hand: nat)
    requires hand <= |storage|
    ensures Sweep(storage, hand, 0) == (storage, hand, None)
  {
  }

  /** Clearing the bit under the hand extends the cleared stretch by one. */
  lemma ClearedNext(before: seq<Entry>, now: seq<Entry>, start: nat, j: nat)
    requires start < |before| && j < |before| && Cleared(before, now, start, j)
    ensures var i := Circ(start, j, |before|);
            && Dist(start, i, |before|) == j
            && Cleared(before, now[i := now[i].(referenced := false)], start, j + 1)
            && forall x: nat :: x < |before| && Dist(start, x, |before|) < j + 1 ==> x == i || Dist(start, x, |before|) < j
  {
    var i := Circ(start, j, |before|);
    forall x: nat | x < |before| && x != i ensures Dist(start, x, |before|) != j {}
  }

  lemma {:induction false} SweepFrom(before: seq<Entry>, now: seq<Entry>, hand: nat, start: nat, j: nat, n: nat)
    returns (k: nat)
    requires start < |before| && j <= |before| && n >= |before| + 1 - j && hand <= |before|
    requires Cleared(before, now, start, j)
    requires forall x: nat :: x < |before| && Dist(start, x, |before|) < j ==> before[x].referenced
    requires (if hand >= |before| then 0 else hand) == Circ(start, j, |before|)
    ensures k <= |before| && FirstClear(before, start, k)
    ensures var (after, hand', victim) := Sweep(now, hand, n);
            && victim == Some(Circ(start, k, |before|)) && hand' == Circ(start, k, |before|) + 1
            && Cleared(before, after, start, k)
    decreases n
  {
    var m := |before|;
    var i := Circ(start, j, m);
    if now[i].referenced {
      assert Dist(start, i, m) < m;
      var next := now[i := now[i].(referenced := false)];
      ClearedNext(before, now, start, j);
      k := SweepFrom(before, next, i + 1, start, j + 1, n - 1);
    } else {
      k := j;
      assert j < m ==> Dist(start, i, m) == j;
    }
  }

  /**
   A sweep allowed at least `|storage| + 1` steps always finds a victim: the first unreferenced
   entry in circular order from the hand, or the entry at the hand when all are referenced.
   Only the bits it passed over are cleared.
   */
  lemma ClockFindsVictim(storage: seq<Entry>, hand: nat, steps: nat) returns (start: nat, k: nat)
    requires 0 < |storage| && hand <= |storage| && steps >= |storage| + 1
    ensures start == if hand == |storage| then 0 else hand
    ensures k <= |storage| && FirstClear(storage, start, k)
    ensures var (after, hand', victim) := Sweep(storage, hand, steps);
            && victim == Some(Circ(start, k, |storage|)) && hand' == Circ(start, k, |storage|) + 1
            && Cleared(storage, after, start, k)
  {
    start := if hand == |storage| then 0 else hand;
    k := SweepFrom(storage, storage, hand, start, 0, steps);
  }

  // ---------------------------------------------------------------------------
  // Finding, freeing and allocating

  /** The bucket scans find a key exactly when it is live. */
  lemma LocateExact(T: Table, H: Hashes, key: string)
    requires Valid(T, H)
    ensures Locate(T, H, key).Absent? <==> key !in KeysOf(Slotted(T), T.storage)
    ensures var w := Locate(T, H, key);
            && (w.InFirst? ==> T.t1[w.pos].index in Slotted(T))
            && (w.InSecond? ==> T.t2[w.pos].index in Slotted(T))
  {
    var w := Locate(T, H, key);
    IndicesAt(T.t1);
    IndicesAt(T.t2);
    if key in KeysOf(Slotted(T), T.storage) {
      var i := Holder(Slotted(T), T.storage, key);
      if i in Indices(T.t1) {
        var p :| 0 <= p < |T.t1| && Full(T.t1[p]) && T.t1[p].index == i;
        assert SlotHomed(T.t1[p], p, T.storage, H, H.h1, T.size);
      } else {
        var p :| 0 <= p < |T.t2| && Full(T.t2[p]) && T.t2[p].index == i;
        assert SlotHomed(T.t2[p], p, T.storage, H, H.h2, T.size);
      }
    }
  }

  lemma ClearFirst(T: Table, H: Hashes, p: nat)
    requires Valid(T, H) && p < |T.t1| && Full(T.t1[p])
    ensures var T' := T.(t1 := T.t1[p := EMPTY]);
            Valid(T', H) && Slotted(T') == Slotted(T) - {T.t1[p].index} && T.t1[p].index in Slotted(T)
  {
    IndicesClear(T.t1, p);
  }

  lemma ClearSecond(T: Table, H: Hashes, p: nat)
    requires Valid(T, H) && p < |T.t2| && Full(T.t2[p])
    ensures var T' := T.(t2 := T.t2[p := EMPTY]);
            Valid(T', H) && Slotted(T') == Slotted(T) - {T.t2[p].index} && T.t2[p].index in Slotted(T)
  {
    IndicesClear(T.t2, p);
  }

  /** The slots of `t`, with the one that holds `i` emptied. */
  predicate Emptied(t: seq<Slot>, t': seq<Slot>, i: nat) {
    && |t'| == |t|
    && forall p :: 0 <= p < |t| ==> t'[p] == if t[p].index == i then EMPTY else t[p]
  }

  /** The scan of an index's home bucket finds the one slot of the table that holds it. */
  lemma FindExact(t: seq<Slot>, storage: seq<Entry>, H: Hashes, h: string -> nat, size: nat, i: nat)
    requires size >= 1 && |t| == 8 * size && InRange(t, |storage|) && i < |storage| && i < NO_INDEX
    requires Homed(t, storage, H, h, size) && Once(t)
    ensures var f := FindIndex(t, Home(h(storage[i].key), size), i, 0);
            Emptied(t, if f.Some? then t[f.value := EMPTY] else t, i)
  {
    var b := Home(h(storage[i].key), size);
    forall p | 0 <= p < |t| && t[p].index == i ensures b <= p < b + 8 {
      assert SlotHomed(t[p], p, storage, H, h, size);
    }
  }

  /** Evicting a storage index empties the slot that holds it, wherever it is, and changes no other. */
  lemma UnslotExact(T: Table, H: Hashes, i: nat)
    requires Valid(T, H) && i < T.used
    ensures var U := Unslot(T, H, i);
            && Valid(U, H) && Slotted(U) == Slotted(T) - {i}
            && Emptied(T.t1, U.t1, i) && Emptied(T.t2, U.t2, i) && U == T.(t1 := U.t1, t2 := U.t2)
  {
    UnslotValid(T, H, i);
    UnslotSlots(T, H, i);
  }

  lemma UnslotSlots(T: Table, H: Hashes, i: nat)
    requires Valid(T, H) && i < T.used
    ensures var U := Unslot(T, H, i);
            Emptied(T.t1, U.t1, i) && Emptied(T.t2, U.t2, i) && U == T.(t1 := U.t1, t2 := U.t2)
  {
    hide Homed, Once, Home, KeysDistinct, FreeSet;
    FindExact(T.t1, T.storage, H, H.h1, T.size, i);
    FindExact(T.t2, T.storage, H, H.h2, T.size, i);
    var f := FindIndex(T.t1, Home(H.h1(T.storage[i].key), T.size), i, 0);
    if f.Some? {
      IndicesAt(T.t1);
      IndicesAt(T.t2);
    }
  }

  lemma UnslotValid(T: Table, H: Hashes, i: nat)
    requires Valid(T, H) && i < T.used
    ensures Valid(Unslot(T, H, i), H) && Slotted(Unslot(T, H, i)) == Slotted(T) - {i}
  {
    var key := T.storage[i].key;
    var b1, b2 := Home(H.h1(key), T.size), Home(H.h2(key), T.size);
    var f1, f2 := FindIndex(T.t1, b1, i, 0), FindIndex(T.t2, b2, i, 0);
    if f1.Some? {
      ClearFirst(T, H, f1.value);
    } else if f2.Some? {
      ClearSecond(T, H, f2.value);
    }
  }

  /** Storage may change freely outside the live indices, and in referenced bits. */
  lemma StorageFrame(T: Table, H: Hashes, storage: seq<Entry>)
    requires Valid(T, H) && |storage| == |T.storage|
    requires forall i :: i in Slotted(T) ==> storage[i].key == T.storage[i].key && storage[i].payload == T.storage[i].payload
    ensures Valid(T.(storage := storage), H)
    ensures View(T.(storage := storage), H) == View(T, H)
  {
    var T' := T.(storage := storage);
    assert Slotted(T') == Slotted(T) && FreeSet(T') == FreeSet(T);
    IndicesAt(T.t1);
    IndicesAt(T.t2);
    assert Homed(T.t1, storage, H, H.h1, T.size) by {
      forall p | 0 <= p < |T.t1| && Full(T.t1[p]) ensures SlotHomed(T.t1[p], p, storage, H, H.h1, T.size) {
        assert SlotHomed(T.t1[p], p, T.storage, H, H.h1, T.size);
      }
    }
    assert Homed(T.t2, storage, H, H.h2, T.size) by {
      forall p | 0 <= p < |T.t2| && Full(T.t2[p]) ensures SlotHomed(T.t2[p], p, storage, H, H.h2, T.size) {
        assert SlotHomed(T.t2[p], p, T.storage, H, H.h2, T.size);
      }
    }
  }

  /** Taking an index off the free list, or from unused storage, changes no slot. */
  lemma TakeFree(T: Table, H: Hashes)
    requires Valid(T, H) && |T.free| > 0
    ensures var T', i := T.(free := T.free[..|T.free| - 1]), T.free[|T.free| - 1];
            Valid(T', H) && Slotted(T') == Slotted(T) && FreeSet(T') == FreeSet(T) - {i} && i !in Slotted(T)
  {
  }

  lemma TakeUnused(T: Table, H: Hashes)
    requires Valid(T, H) && T.used < |T.storage|
    ensures var T' := T.(used := T.used + 1);
            && Valid(T', H) && Slotted(T') == Slotted(T) && FreeSet(T') == FreeSet(T)
            && T.used !in Slotted(T) && T.used !in FreeSet(T)
  {
  }

  /** The entry for a new key, written over an index that is neither live nor free. */
  lemma WriteEntry(T: Table, H: Hashes, i: nat, entry: Entry)
    requires Valid(T, H) && i < T.used && i !in Slotted(T) && i !in FreeSet(T)
    requires entry.key !in KeysOf(Slotted(T), T.storage)
    ensures var A := T.(storage := T.storage[i := entry]);
            && Floating(A, H, Slot(Tag(H.h1(entry.key)), i))
            && Slotted(A) == Slotted(T) && View(A, H) == View(T, H)
  {
    var A := T.(storage := T.storage[i := entry]);
    StorageFrame(T, H, A.storage);
  }

  /** What an allocation did: `i` is now in hand, out of every slot and off the free list. */
  predicate Allocated(T: Table, H: Hashes, A: Table, i: nat, entry: Entry) {
    && Floating(A, H, Slot(Tag(H.h1(entry.key)), i))
    && |A.storage| == |T.storage| && A.storage[i] == entry
    && A.size == T.size
    && Slotted(A) == Slotted(T) - {i}
    && FreeSet(A) == FreeSet(T) - {i}
    && A.used == (if i < T.used then T.used else T.used + 1)
    && i <= T.used
  }

  lemma AllocateFree(T: Table, H: Hashes, entry: Entry)
    requires Valid(T, H) && entry.key !in KeysOf(Slotted(T), T.storage) && |T.free| > 0
    ensures var (A, got) := Allocate(T, H, entry);
            got.Some? && Allocated(T, H, A, got.value, entry) && got.value !in Slotted(T) && View(A, H) == View(T, H)
  {
    hide Accounted, Slotted, ViewOf, KeysOf, Tag;
    var B, i := T.(free := T.free[..|T.free| - 1]), T.free[|T.free| - 1];
    TakeFree(T, H);
    WriteEntry(B, H, i, entry);
  }

  lemma AllocateUnused(T: Table, H: Hashes, entry: Entry)
    requires Valid(T, H) && entry.key !in KeysOf(Slotted(T), T.storage)
    requires T.free == [] && T.used < |T.storage|
    ensures var (A, got) := Allocate(T, H, entry);
            got.Some? && Allocated(T, H, A, got.value, entry) && got.value !in Slotted(T) && View(A, H) == View(T, H)
  {
    hide Accounted, Slotted, ViewOf, KeysOf, Tag;
    var B, i := T.(used := T.used + 1), T.used;
    TakeUnused(T, H);
    WriteEntry(B, H, i, entry);
  }

  /** The keys an eviction of index `i` takes out of the map. */
  function Evicted(T: Table, i: nat): set<string>
    requires i < |T.storage|
  {
    if i in Slotted(T) then {T.storage[i].key} else {}
  }

  /** After the sweep, which only touched referenced bits, the victim leaves its slot. */
  lemma EvictVictim(T: Table, H: Hashes, S: Table, i: nat)
    requires Valid(T, H) && i < T.used
    requires |S.storage| == |T.storage| && S.hand <= |T.storage| && S == T.(storage := S.storage, hand := S.hand)
    requires forall j :: 0 <= j < |T.storage| ==> S.storage[j].key == T.storage[j].key && S.storage[j].payload == T.storage[j].payload
    ensures Valid(S, H)
    ensures var U := Unslot(S, H, i);
            && Valid(U, H) && Slotted(U) == Slotted(T) - {i} && FreeSet(U) == FreeSet(T)
            && View(U, H) == View(T, H) - Evicted(T, i)
            && KeysOf(Slotted(U), U.storage) <= KeysOf(Slotted(T), T.storage)
  {
    hide Homed, Once, ViewOf, Indices;
    StorageFrame(T, H, S.storage);
    assert Slotted(S) == Slotted(T) && FreeSet(S) == FreeSet(T);
    UnslotValid(S, H, i);
    if i in Slotted(S) {
      ViewDrop(Slotted(S), S.storage, i);
    } else {
      assert Slotted(S) - {i} == Slotted(S);
    }
  }

  lemma AllocateEvict(T: Table, H: Hashes, entry: Entry)
    requires Valid(T, H) && entry.key !in KeysOf(Slotted(T), T.storage)
    requires T.free == [] && T.used == |T.storage| && |T.storage| > 0
    ensures var (A, got) := Allocate(T, H, entry);
            && got.Some? && Allocated(T, H, A, got.value, entry)
            && got == Sweep(T.storage, T.hand, 2 * |T.storage|).2
            && View(A, H) == View(T, H) - Evicted(T, got.value)
  {
    var (storage, hand, victim) := Sweep(T.storage, T.hand, 2 * |T.storage|);
    var start, k := ClockFindsVictim(T.storage, T.hand, 2 * |T.storage|);
    var S := T.(storage := storage, hand := hand);
    var i := victim.value;
    EvictVictim(T, H, S, i);
    var U := Unslot(S, H, i);
    WriteEntry(U, H, i, entry);
  }

  // ---------------------------------------------------------------------------
  // The operations against a plain map

  lemma ValidKeys(T: Table, H: Hashes)
    requires Valid(T, H)
    ensures KeysDistinct(Slotted(T), T.storage)
  {
  }

  /** The displacement of a fresh entry, seen through the map. */
  lemma DisplaceView(A: Table, H: Hashes, cur: Slot)
    requires Floating(A, H, cur)
    ensures var r := Displace(A, H, 0, cur);
            var e := A.storage[cur.index];
            var full := View(A, H)[e.key := e.payload];
            && Valid(r.table, H) && r.table == A.(t1 := r.table.t1, t2 := r.table.t2)
            && (r.Placed? ==> Slotted(r.table) == Slotted(A) + {cur.index} && View(r.table, H) == full)
            && (r.Dropped? ==>
                  && r.slot.index in Slotted(A) + {cur.index} && r.slot.index < |A.storage|
                  && Slotted(r.table) == Slotted(A) + {cur.index} - {r.slot.index}
                  && A.storage[r.slot.index].key in full
                  && View(r.table, H) == full - {A.storage[r.slot.index].key})
  {
    hide Accounted, Slotted, FreeSet, ViewOf, Tag, Displace, KeysDistinct, InRange;
    var S := Slotted(A) + {cur.index};
    DisplaceSound(A, H, 0, cur, S);
    var r := Displace(A, H, 0, cur);
    ValidKeys(A, H);
    ViewAdd(Slotted(A), A.storage, cur.index);
    if r.Dropped? {
      assert Slotted(r.table) == S - {r.slot.index};
      ViewDrop(S, A.storage, r.slot.index);
    }
  }

  /** How an insert changes a map: at most one victim leaves, and a failed displacement loses one key. */
  ghost predicate MapInsert(
    before: map<string, Bytes>, after: map<string, Bytes>, key: string, payload: Bytes, ok: bool,
    evicted: set<string>, lost: set<string>)
  {
    var full := (before - evicted)[key := payload];
    && after == full - lost
    && (ok <==> lost == {})
    && (lost == {} || exists k :: k in full && lost == {k})
    && (evicted == {} || exists k :: k in before && evicted == {k})
    && (key in before ==> ok && evicted == {})
  }

  /** Only a full table evicts, and it evicts the key CLOCK chose. */
  ghost predicate ClockChose(T: Table, evicted: set<string>)
    requires Shape(T)
  {
    && T.free == [] && T.used == |T.storage| && |T.storage| > 0
    && exists v: nat :: Sweep(T.storage, T.hand, 2 * |T.storage|).2 == Some(v) && evicted == {T.storage[v].key}
  }

  lemma InsertExisting(T: Table, H: Hashes, key: string, payload: Bytes)
    requires Valid(T, H) && key in View(T, H)
    ensures var (D, ok) := Insert(T, H, key, payload);
            Valid(D, H) && MapInsert(View(T, H), View(D, H), key, payload, ok, {}, {})
  {
    hide Accounted, Slotted, ViewOf, Allocate, Displace, Tag, Home;
    LocateExact(T, H, key);
    var w := Locate(T, H, key);
    var i := if w.InFirst? then T.t1[w.pos].index else T.t2[w.pos].index;
    UpdateEntry(T, H, i, payload);
    assert View(T, H) - {} == View(T, H);
  }

  lemma UpdateEntry(T: Table, H: Hashes, i: nat, payload: Bytes)
    requires Valid(T, H) && i in Slotted(T)
    requires i < |T.storage|
    ensures var D := T.(storage := T.storage[i := Entry(T.storage[i].key, payload, true)]);
            Valid(D, H) && View(D, H) == View(T, H)[T.storage[i].key := payload]
  {
    hide Accounted, Indices, InRange, KeysOf, Holder, ViewOf;
    ValidKeys(T, H);
    var storage := T.storage[i := Entry(T.storage[i].key, payload, true)];
    var D := T.(storage := storage);
    assert forall j :: j in Slotted(T) ==> j < |storage| && storage[j].key == T.storage[j].key;
    ExistingValid(T, H, storage);
    assert Slotted(D) == Slotted(T);
    ViewUpdate(Slotted(T), T.storage, storage, i);
  }

  lemma ExistingValid(T: Table, H: Hashes, storage: seq<Entry>)
    requires Valid(T, H) && |storage| == |T.storage|
    requires forall j :: j in Slotted(T) ==> j < |storage| && storage[j].key == T.storage[j].key
    ensures Valid(T.(storage := storage), H)
  {
  }

  /** The three ways to allocate, in one statement; allocation fails exactly in a table of no capacity. */
  ghost predicate AllocateEffect(T: Table, H: Hashes, entry: Entry, A: Table, got: Option<nat>)
    requires Valid(T, H)
  {
    && (got.None? <==> |T.storage| == 0)
    && (got.None? ==> A == T)
    && (got.Some? ==>
          && got.value < |T.storage|
          && Allocated(T, H, A, got.value, entry)
          && View(A, H) == View(T, H) - Evicted(T, got.value)
          && (got.value in Slotted(T) ==>
                ClockChose(T, {T.storage[got.value].key}) && got == Sweep(T.storage, T.hand, 2 * |T.storage|).2))
  }

  lemma AllocateSound(T: Table, H: Hashes, entry: Entry)
    requires Valid(T, H) && entry.key !in View(T, H)
    ensures AllocateEffect(T, H, entry, Allocate(T, H, entry).0, Allocate(T, H, entry).1)
  {
    hide Accounted, Slotted, ViewOf, KeysOf, Tag, Sweep, Unslot;
    ValidKeys(T, H);
    if |T.free| > 0 {
      AllocateFree(T, H, entry);
    } else if T.used < |T.storage| {
      AllocateUnused(T, H, entry);
    } else if |T.storage| > 0 {
      AllocateEvict(T, H, entry);
    }
  }

  lemma InsertNew(T: Table, H: Hashes, key: string, payload: Bytes) returns (evicted: set<string>, lost: set<string>)
    requires Valid(T, H) && key !in View(T, H)
    ensures var (D, ok) := Insert(T, H, key, payload);
            && Valid(D, H) && MapInsert(View(T, H), View(D, H), key, payload, ok, evicted, lost)
            && (evicted != {} ==> ClockChose(T, evicted))
  {
    hide Accounted, Slotted, ViewOf, Displace, Allocate, Tag, Locate, FreeSet, ClockChose;
    var entry := Entry(key, payload, true);
    ValidKeys(T, H);
    LocateExact(T, H, key);
    AllocateSound(T, H, entry);
    var (A, got) := Allocate(T, H, entry);
    if got.None? {
      evicted, lost := {}, {key};
    } else {
      var cur := Slot(Tag(H.h1(key)), got.value);
      DisplaceView(A, H, cur);
      var r := Displace(A, H, 0, cur);
      evicted, lost := Evicted(T, got.value), if r.Placed? then {} else {A.storage[r.slot.index].key};
    }
  }

  /**
   The contract of `insert`: on true the map is the old one less at most one CLOCK victim with the
   key bound to the new payload; on false one further key, possibly the new one, is lost.
   */
  lemma InsertView(T: Table, H: Hashes, key: string, payload: Bytes) returns (evicted: set<string>, lost: set<string>)
    requires Valid(T, H)
    ensures var (D, ok) := Insert(T, H, key, payload);
            && Valid(D, H) && MapInsert(View(T, H), View(D, H), key, payload, ok, evicted, lost)
            && (evicted != {} ==> ClockChose(T, evicted))
  {
    hide MapInsert, ClockChose, Accounted, View, Insert;
    if key in View(T, H) {
      evicted, lost := {}, {};
      InsertExisting(T, H, key, payload);
    } else {
      evicted, lost := InsertNew(T, H, key, payload);
    }
  }

  /**
   The index accounting of an insert that had to allocate: `i` leaves the free list, the orphans or
   its old slot, and on failure exactly one index of the enlarged slotted set becomes an orphan.
   */
  lemma InsertAccounting(T: Table, H: Hashes, key: string, payload: Bytes) returns (i: nat, lost: set<nat>)
    requires Valid(T, H) && key !in View(T, H) && |T.storage| > 0
    ensures var (D, ok) := Insert(T, H, key, payload);
            && Slotted(D) == Slotted(T) + {i} - lost
            && FreeSet(D) == FreeSet(T) - {i}
            && Orphans(D) == Orphans(T) - {i} + lost
            && (ok <==> lost == {})
            && (!ok ==> exists x :: x in Slotted(T) + {i} && lost == {x})
  {
    hide Accounted, Slotted, ViewOf, Displace, Allocate, Tag, Locate, ClockChose, FreeSet, Orphans, KeysOf, Evicted;
    var entry := Entry(key, payload, true);
    ValidKeys(T, H);
    LocateExact(T, H, key);
    AllocateSound(T, H, entry);
    var (A, got) := Allocate(T, H, entry);
    i := got.value;
    var cur := Slot(Tag(H.h1(key)), i);
    DisplaceView(A, H, cur);
    var r := Displace(A, H, 0, cur);
    lost := if r.Placed? then {} else {r.slot.index};
    var D := Insert(T, H, key, payload).0;
    SameFree(A, D);
    OrphanShift(T, H, D, i, lost);
  }

  lemma SameFree(A: Table, D: Table)
    requires A.free == D.free
    ensures FreeSet(A) == FreeSet(D)
  {
  }

  lemma OrphanShift(T: Table, H: Hashes, D: Table, i: nat, lost: set<nat>)
    requires Valid(T, H) && i <= T.used && D.used == (if i < T.used then T.used else T.used + 1)
    requires Slotted(D) == Slotted(T) + {i} - lost && FreeSet(D) == FreeSet(T) - {i}
    requires lost <= Slotted(T) + {i}
    ensures Orphans(D) == Orphans(T) - {i} + lost
  {
  }

  // ---------------------------------------------------------------------------
  // Room: when an insert drops nothing

  /** The empty slots of the bucket at `b`. */
  function EmptySlots(t: seq<Slot>, b: nat): set<int>
    requires b + 8 <= |t|
  {
    set p | b <= p < b + 8 && !Full(t[p])
  }

  /** How many entries the arena can take without an eviction. */
  function Spare(T: Table): int {
    |T.free| + |T.storage| - T.used
  }

  /** Room for `n` entries: empty slots in the key's two buckets, and indices to be had without eviction. */
  predicate RoomFor(T: Table, H: Hashes, key: string, n: nat)
    requires Shape(T)
  {
    && |EmptySlots(T.t1, Home(H.h1(key), T.size))| + |EmptySlots(T.t2, Home(H.h2(key), T.size))| >= n
    && Spare(T) >= n
  }

  /** From `T` to `D` no key lost room for more than `k` entries. */
  ghost predicate UsesUp(T: Table, D: Table, H: Hashes, k: nat) {
    && Shape(T) && Shape(D)
    && forall key: string, n: nat, m: nat :: RoomFor(T, H, key, m) && m >= n + k ==> RoomFor(D, H, key, n)
  }

  /** A new table has room for sixteen entries everywhere, if its arena has. */
  lemma NewRoom(size: nat, requested: nat, blank: Entry, H: Hashes, key: string, n: nat)
    requires Shape(New(size, requested, blank)) && n <= 16 <= |New(size, requested, blank).storage|
    ensures RoomFor(New(size, requested, blank), H, key, n)
  {
    var T := New(size, requested, blank);
    AllEmpty(T.t1, Home(H.h1(key), T.size));
    AllEmpty(T.t2, Home(H.h2(key), T.size));
  }

  lemma AllEmpty(t: seq<Slot>, b: nat)
    requires b + 8 <= |t| && forall p :: 0 <= p < |t| ==> !Full(t[p])
    ensures |EmptySlots(t, b)| == 8
  {
    assert EmptySlots(t, b) == {b, b + 1, b + 2, b + 3, b + 4, b + 5, b + 6, b + 7};
  }

  lemma LessRoom(T: Table, H: Hashes, key: string, n: nat, less: nat)
    requires Shape(T) && RoomFor(T, H, key, n) && less <= n
    ensures RoomFor(T, H, key, less)
  {
  }

  lemma FillOne(t: seq<Slot>, p: nat, s: Slot, b: nat)
    requires p < |t| && b + 8 <= |t|
    ensures |EmptySlots(t[p := s], b)| >= |EmptySlots(t, b)| - 1
  {
    var old', new' := EmptySlots(t, b), EmptySlots(t[p := s], b);
    assert old' - {p} <= new';
    SetSize(old' - {p}, new');
    if p in old' { assert old' == (old' - {p}) + {p}; } else { assert old' - {p} == old'; }
  }

  lemma SetSize(a: set<int>, b: set<int>)
    requires a <= b
    ensures |a| <= |b|
  {
    assert b == a + (b - a);
  }

  lemma ClearOne(t: seq<Slot>, p: nat, b: nat)
    requires p < |t| && b + 8 <= |t|
    ensures |EmptySlots(t[p := EMPTY], b)| >= |EmptySlots(t, b)|
  {
    SetSize(EmptySlots(t, b), EmptySlots(t[p := EMPTY], b));
  }

  lemma AllocateSpare(T: Table, H: Hashes, entry: Entry)
    requires Shape(T) && Spare(T) >= 1
    ensures var A := Allocate(T, H, entry).0; A.t1 == T.t1 && A.t2 == T.t2 && Spare(A) == Spare(T) - 1
  {
  }

  /** `D` is `T` with `cur` put into slot `p` of one of the tables. */
  predicate PlacedAt(T: Table, D: Table, cur: Slot, p: nat) {
    && p < |T.t1| && p < |T.t2|
    && D == (if D.t2 == T.t2 then T.(t1 := T.t1[p := cur]) else T.(t2 := T.t2[p := cur]))
  }

  /** With an empty slot at hand the loop's first round places the entry there. */
  lemma RoomPlaces(T: Table, H: Hashes, cur: Slot) returns (p: nat)
    requires Shape(T) && cur.index < T.used && RoomFor(T, H, T.storage[cur.index].key, 0)
    requires var key := T.storage[cur.index].key;
             EmptySlots(T.t1, Home(H.h1(key), T.size)) + EmptySlots(T.t2, Home(H.h2(key), T.size)) != {}
    ensures var r := Displace(T, H, 0, cur);
            r.Placed? && PlacedAt(T, r.table, cur, p)
  {
    hide Home, RoomFor;
    var key := T.storage[cur.index].key;
    var b1, b2 := Home(H.h1(key), T.size), Home(H.h2(key), T.size);
    var q :| q in EmptySlots(T.t1, b1) + EmptySlots(T.t2, b2);
    assert !Full(T.t1[q]) || !Full(T.t2[q]);
    p := NextMove(T, H, 0, cur).pos;
  }

  /**
   An insert that updates a live key or finds room drops nothing, which can be told before the call,
   and takes up room for at most one entry anywhere.
   */
  lemma RoomKeepsAll(T: Table, H: Hashes, key: string, payload: Bytes)
    requires Valid(T, H) && (key in View(T, H) || RoomFor(T, H, key, 1))
    ensures var (D, ok) := Insert(T, H, key, payload);
            && ok && Valid(D, H) && View(D, H) == View(T, H)[key := payload]
            && UsesUp(T, D, H, 1)
  {
    hide Accounted, Slotted, ViewOf, Displace, Allocate, Tag, Locate, FreeSet, KeysOf, RoomFor, Insert;
    if key in View(T, H) {
      InsertExisting(T, H, key, payload);
      UpdateRoom(T, H, key, payload);
    } else {
      NewKeyRoom(T, H, key, payload);
    }
  }

  lemma UpdateRoom(T: Table, H: Hashes, key: string, payload: Bytes)
    requires Valid(T, H) && key in View(T, H)
    ensures var D := Insert(T, H, key, payload).0;
            UsesUp(T, D, H, 0)
  {
    hide Accounted, Slotted, ViewOf, Allocate, Displace, Tag, Home, EmptySlots;
    LocateExact(T, H, key);
  }

  lemma NewKeyRoom(T: Table, H: Hashes, key: string, payload: Bytes)
    requires Valid(T, H) && key !in View(T, H) && RoomFor(T, H, key, 1)
    ensures var (D, ok) := Insert(T, H, key, payload);
            && ok && Valid(D, H) && View(D, H) == View(T, H)[key := payload]
            && UsesUp(T, D, H, 1)
  {
    hide Accounted, Slotted, ViewOf, Displace, Allocate, Tag, Locate, FreeSet, KeysOf, Home, EmptySlots;
    var entry := Entry(key, payload, true);
    ValidKeys(T, H);
    LocateExact(T, H, key);
    if |T.free| > 0 { AllocateFree(T, H, entry); } else { AllocateUnused(T, H, entry); }
    var (A, got) := Allocate(T, H, entry);
    AllocateSpare(T, H, entry);
    var cur := Slot(Tag(H.h1(key)), got.value);
    DisplaceView(A, H, cur);
    assert EmptySlots(A.t1, Home(H.h1(key), A.size)) + EmptySlots(A.t2, Home(H.h2(key), A.size)) != {};
    var p := RoomPlaces(A, H, cur);
    var D := Displace(A, H, 0, cur).table;
    forall k: string, n: nat, m: nat | RoomFor(T, H, k, m) && m >= n + 1 ensures RoomFor(D, H, k, n) {
      PlacedRoom(T, H, A, D, cur, p, k, n);
    }
  }

  lemma PlacedRoom(T: Table, H: Hashes, A: Table, D: Table, cur: Slot, p: nat, k: string, n: nat)
    requires Shape(T) && Shape(A) && Shape(D) && RoomFor(T, H, k, n + 1)
    requires A.t1 == T.t1 && A.t2 == T.t2 && A.size == T.size && Spare(A) == Spare(T) - 1 && PlacedAt(A, D, cur, p)
    ensures RoomFor(D, H, k, n)
  {
    hide EmptySlots, Home;
    FillOne(A.t1, p, cur, Home(H.h1(k), T.size));
    FillOne(A.t2, p, cur, Home(H.h2(k), T.size));
  }

  /** Lookups leave room as it is. */
  lemma LookupRoom(T: Table, H: Hashes, key: string)
    requires Valid(T, H)
    ensures var D := Lookup(T, H, key).0;
            UsesUp(T, D, H, 0)
  {
    hide Accounted, Slotted, ViewOf, Tag, Home, EmptySlots;
    LookupView(T, H, key);
  }

  /** Removals only make room. */
  lemma RemoveRoom(T: Table, H: Hashes, key: string)
    requires Valid(T, H)
    ensures var D := Remove(T, H, key).0;
            UsesUp(T, D, H, 0)
  {
    hide Accounted, Slotted, ViewOf, Tag, Home, EmptySlots;
    RemoveView(T, H, key);
    var w := Locate(T, H, key);
    if !w.Absent? {
      forall k: string, n: nat, m: nat | RoomFor(T, H, k, m) && m >= n ensures RoomFor(Remove(T, H, key).0, H, k, n) {
        if w.InFirst? { ClearOne(T.t1, w.pos, Home(H.h1(k), T.size)); } else { ClearOne(T.t2, w.pos, Home(H.h2(k), T.size)); }
      }
    }
  }

  // ---------------------------------------------------------------------------
  // Lookup, removal, creation

  /** The tag of a 64-bit hash is its high word, or 1 where that is 0, which marks an empty slot. */
  lemma TagIsHighWord(hi: nat, lo: nat)
    requires hi < 0x1_0000_0000 && lo < 0x1_0000_0000
    ensures Tag(hi * 0x1_0000_0000 + lo) == if hi == 0 then 1 else hi
  {
    Arithmetic.DivUnique(hi * 0x1_0000_0000 + lo, 0x1_0000_0000, hi, lo);
  }

  lemma LookupView(T: Table, H: Hashes, key: string)
    requires Valid(T, H)
    ensures var (D, r) := Lookup(T, H, key);
            && r == (if key in View(T, H) then Some(View(T, H)[key]) else None)
            && Valid(D, H) && View(D, H) == View(T, H)
            && D == T.(storage := D.storage) && |D.storage| == |T.storage|
            && forall i :: 0 <= i < |T.storage| ==>
                 D.storage[i] == if i in Slotted(T) && T.storage[i].key == key then T.storage[i].(referenced := true)
                                 else T.storage[i]
  {
    hide Accounted, Slotted, ViewOf, Tag, Home, InRange;
    ValidKeys(T, H);
    LocateExact(T, H, key);
    var w := Locate(T, H, key);
    if w.Absent? {
      forall i | 0 <= i < |T.storage| && i in Slotted(T) ensures T.storage[i].key != key {
        assert T.storage[i].key in KeysOf(Slotted(T), T.storage);
      }
    } else {
      var i := if w.InFirst? then T.t1[w.pos].index else T.t2[w.pos].index;
      StorageFrame(T, H, T.storage[i := T.storage[i].(referenced := true)]);
    }
  }

  /** The sweep passes over a referenced entry while another is unreferenced. */
  lemma SweepSpares(storage: seq<Entry>, hand: nat, steps: nat, i: nat, j: nat)
    requires hand <= |storage| && steps >= |storage| + 1 && i < |storage| && j < |storage|
    requires storage[i].referenced && !storage[j].referenced
    ensures Sweep(storage, hand, steps).2.Some? && Sweep(storage, hand, steps).2 != Some(i)
  {
    var start, k := ClockFindsVictim(storage, hand, steps);
    assert Dist(start, j, |storage|) >= k;
  }

  /** A key just read is not the next one evicted while some entry of the full arena is unreferenced. */
  lemma JustReadSurvives(T: Table, H: Hashes, key: string, entry: Entry, j: nat)
    requires Valid(T, H) && key in View(T, H) && entry.key !in View(T, H)
    requires j < |T.storage| && !T.storage[j].referenced && (j in Slotted(T) ==> T.storage[j].key != key)
    ensures var D := Lookup(T, H, key).0;
            var A := Allocate(D, H, entry).0;
            Valid(D, H) && Valid(A, H) && key in View(A, H) && View(A, H)[key] == View(T, H)[key]
  {
    hide Accounted, Slotted, ViewOf, Tag, Locate, FreeSet, Sweep, Allocate, Lookup, KeysOf, InRange;
    ValidKeys(T, H);
    LookupView(T, H, key);
    var D := Lookup(T, H, key).0;
    var i := Holder(Slotted(T), T.storage, key);
    AllocateSound(D, H, entry);
    HeldByOne(T, D, H, i, key);
    if Allocate(D, H, entry).1.value in Slotted(D) {
      SweepSpares(D.storage, D.hand, 2 * |D.storage|, i, j);
      KeysApartIn(D, H, i);
    }
  }

  lemma HeldByOne(T: Table, D: Table, H: Hashes, i: nat, key: string)
    requires Valid(T, H) && Valid(D, H) && D == T.(storage := D.storage) && i in Slotted(T) && T.storage[i].key == key
    ensures Slotted(D) == Slotted(T) && i < |T.storage|
  {
  }

  lemma KeysApartIn(T: Table, H: Hashes, i: nat)
    requires Valid(T, H) && i in Slotted(T)
    ensures i < |T.storage| && forall j: nat :: j in Slotted(T) && j != i ==> T.storage[j].key != T.storage[i].key
  {
  }

  lemma {:induction false} BoundedSet(S: set<nat>, n: nat)
    requires forall x :: x in S ==> x < n
    ensures |S| <= n
    decreases n
  {
    if n == 0 {
    } else {
      BoundedSet(S - {n - 1}, n - 1);
    }
  }

  lemma {:induction false} DistinctCount(s: seq<nat>)
    requires forall i, j :: 0 <= i < j < |s| ==> s[i] != s[j]
    ensures |set i | 0 <= i < |s| :: s[i]| == |s|
  {
    var all := set i | 0 <= i < |s| :: s[i];
    if s == [] {
    } else {
      var t := s[..|s| - 1];
      var most := set i | 0 <= i < |t| :: t[i];
      DistinctCount(t);
      forall x | x in all ensures x in most + {s[|s| - 1]} {
        var i :| 0 <= i < |s| && s[i] == x;
      }
      forall x | x in most ensures x in all {
        var i :| 0 <= i < |t| && t[i] == x;
      }
      assert all == most + {s[|s| - 1]};
    }
  }

  /** Live and free indices together never outnumber the storage in use. */
  lemma OccupancyBound(T: Table, H: Hashes)
    requires Valid(T, H)
    ensures |Slotted(T)| + |T.free| <= T.used
  {
    DistinctCount(T.free);
    IndicesAt(T.t1);
    IndicesAt(T.t2);
    forall x | x in Slotted(T) + FreeSet(T) ensures x < T.used {}
    BoundedSet(Slotted(T) + FreeSet(T), T.used);
    assert |Slotted(T) + FreeSet(T)| == |Slotted(T)| + |FreeSet(T)|;
  }

  lemma PutBack(T: Table, H: Hashes, i: nat)
    requires Valid(T, H) && i < T.used && i !in Slotted(T) && i !in FreeSet(T)
    ensures var D := T.(free := T.free + [i]);
            Valid(D, H) && Slotted(D) == Slotted(T) && FreeSet(D) == FreeSet(T) + {i}
  {
    var D := T.(free := T.free + [i]);
    forall j | 0 <= j < |T.free| ensures T.free[j] != i {
      assert T.free[j] in FreeSet(T);
    }
    DistinctCount(D.free);
    BoundedSet(set j | 0 <= j < |D.free| :: D.free[j], T.used);
    assert D.free[|T.free|] == i;
    forall x | x in FreeSet(T) ensures x in FreeSet(D) {
      var j :| 0 <= j < |T.free| && T.free[j] == x;
      assert D.free[j] == x;
    }
    forall x | x in FreeSet(D) ensures x in FreeSet(T) + {i} {
      var j :| 0 <= j < |D.free| && D.free[j] == x;
      assert j < |T.free| ==> T.free[j] == x;
    }
  }

  /** The index a removal frees is the next one an allocation takes, and nothing else has changed. */
  lemma RemovedIsReused(T: Table, H: Hashes, key: string, entry: Entry)
    requires Valid(T, H) && key in View(T, H)
    ensures var D := Remove(T, H, key).0;
            Shape(D) &&
            var (A, got) := Allocate(D, H, entry);
            && got.Some? && got.value in Slotted(T) && got.value < |T.storage| && T.storage[got.value].key == key
            && A == T.(t1 := D.t1, t2 := D.t2, storage := T.storage[got.value := entry])
  {
    hide Accounted, Slotted, ViewOf, Tag, Home, FreeSet;
    LocateExact(T, H, key);
    RemoveView(T, H, key);
    ValidKeys(T, H);
  }

  /** The index of a cleared slot goes to the free list. */
  lemma FreeCleared(T: Table, H: Hashes, U: Table, i: nat)
    requires Valid(T, H) && Valid(U, H) && U == T.(t1 := U.t1, t2 := U.t2)
    requires i in Slotted(T) && Slotted(U) == Slotted(T) - {i} && i < |T.storage|
    ensures var D := U.(free := U.free + [i]);
            && Valid(D, H) && View(D, H) == View(T, H) - {T.storage[i].key}
            && Orphans(D) == Orphans(T) && |D.free| <= |D.storage|
  {
    hide Accounted, Slotted, ViewOf, InRange, FreeSet;
    ValidKeys(T, H);
    SlottedNotFree(T, H, U, i);
    PutBack(U, H, i);
    ViewDrop(Slotted(T), T.storage, i);
  }

  /** Removal takes the key out of the map and its index to the free list, which never overflows. */
  lemma RemoveView(T: Table, H: Hashes, key: string)
    requires Valid(T, H)
    ensures var (D, ok) := Remove(T, H, key);
            && Valid(D, H)
            && (ok <==> key in View(T, H))
            && View(D, H) == View(T, H) - {key}
            && Orphans(D) == Orphans(T)
            && |D.free| == |T.free| + (if ok then 1 else 0) <= |D.storage|
  {
    hide Accounted, Slotted, ViewOf, Tag, Home, InRange, FreeSet, Orphans;
    ValidKeys(T, H);
    LocateExact(T, H, key);
    var w := Locate(T, H, key);
    if w.Absent? {
      assert View(T, H) - {key} == View(T, H);
    } else {
      var i := if w.InFirst? then T.t1[w.pos].index else T.t2[w.pos].index;
      var U := if w.InFirst? then T.(t1 := T.t1[w.pos := EMPTY]) else T.(t2 := T.t2[w.pos := EMPTY]);
      if w.InFirst? { ClearFirst(T, H, w.pos); } else { ClearSecond(T, H, w.pos); }
      FreeCleared(T, H, U, i);
    }
  }

  lemma SlottedNotFree(T: Table, H: Hashes, U: Table, i: nat)
    requires Valid(T, H) && U.free == T.free && i in Slotted(T)
    ensures FreeSet(U) == FreeSet(T) && i !in FreeSet(U) && i < T.used
  {
  }

  lemma NewValid(size: nat, requested: nat, blank: Entry, H: Hashes)
    requires size >= 1
    requires requested <= NO_INDEX || size * 16 * 90 / 100 <= NO_INDEX
    ensures Valid(New(size, requested, blank), H)
    ensures View(New(size, requested, blank), H) == map[]
    ensures requested >= 1 ==> |New(size, requested, blank).storage| >= 1
  {
  }

  // ---------------------------------------------------------------------------
  // The dump of all entries

  predicate KeysApart(es: seq<Entry>) {
    forall i, j :: 0 <= i < j < |es| ==> es[i].key != es[j].key
  }

  /** `e` is the entry of a full slot in `t[lo..hi]`. */
  ghost predicate InSlots(t: seq<Slot>, storage: seq<Entry>, lo: int, hi: int, e: Entry)
    requires 0 <= lo <= hi <= |t| && InRange(t, |storage|)
  {
    exists p :: lo <= p < hi && Full(t[p]) && storage[t[p].index] == e
  }

  lemma KeysApartConcat(a: seq<Entry>, b: seq<Entry>)
    requires KeysApart(a) && KeysApart(b)
    requires forall x, y :: x in a && y in b ==> x.key != y.key
    ensures KeysApart(a + b)
  {
  }

  /** Slots of one valid table hold entries with different keys. */
  ghost predicate SlotKeysApart(t: seq<Slot>, storage: seq<Entry>)
    requires InRange(t, |storage|)
  {
    forall p, q :: 0 <= p < q < |t| && Full(t[p]) && Full(t[q]) ==> storage[t[p].index].key != storage[t[q].index].key
  }

  ghost predicate TablesApart(T: Table)
    requires Shape(T)
  {
    && SlotKeysApart(T.t1, T.storage) && SlotKeysApart(T.t2, T.storage)
    && (forall p, q :: 0 <= p < |T.t1| && 0 <= q < |T.t2| && Full(T.t1[p]) && Full(T.t2[q])
          ==> T.storage[T.t1[p].index].key != T.storage[T.t2[q].index].key)
  }

  /** The keys behind later slots differ from the key at `p`. */
  lemma RowTail(t: seq<Slot>, storage: seq<Entry>, p: nat, end: nat)
    requires p < end <= |t| && InRange(t, |storage|) && SlotKeysApart(t, storage) && Full(t[p])
    ensures forall e :: InSlots(t, storage, p + 1, end, e) ==> e.key != storage[t[p].index].key
  {
  }

  lemma NoSlots(t: seq<Slot>, storage: seq<Entry>, p: nat)
    requires p <= |t| && InRange(t, |storage|)
    ensures KeysApart([]) && forall e :: !InSlots(t, storage, p, p, e)
  {
  }

  lemma OneSlot(t: seq<Slot>, storage: seq<Entry>, p: nat, head: seq<Entry>)
    requires p < |t| && InRange(t, |storage|) && head == if Full(t[p]) then [storage[t[p].index]] else []
    ensures KeysApart(head) && forall e :: e in head <==> InSlots(t, storage, p, p + 1, e)
  {
  }

  lemma {:induction false} RowExact(t: seq<Slot>, storage: seq<Entry>, p: nat, end: nat)
    requires p <= end <= |t| && InRange(t, |storage|) && SlotKeysApart(t, storage)
    ensures KeysApart(Row(t, storage, p, end))
    ensures forall e :: e in Row(t, storage, p, end) <==> InSlots(t, storage, p, end, e)
    decreases end - p
  {
    hide SlotKeysApart, KeysApart, InSlots;
    if p == end {
      NoSlots(t, storage, p);
    } else {
      RowExact(t, storage, p + 1, end);
      var rest := Row(t, storage, p + 1, end);
      var head := if Full(t[p]) then [storage[t[p].index]] else [];
      OneSlot(t, storage, p, head);
      if Full(t[p]) { RowTail(t, storage, p, end); }
      KeysApartConcat(head, rest);
      forall e ensures e in head + rest <==> InSlots(t, storage, p, end, e) {
        SplitSlots(t, storage, p, p + 1, end, e);
      }
    }
  }

  lemma {:induction false} DumpExact(T: Table, n: nat)
    requires Shape(T) && n <= T.size && TablesApart(T)
    ensures KeysApart(AllEntries(T, n))
    ensures forall e :: e in AllEntries(T, n) <==>
                        InSlots(T.t1, T.storage, 0, 8 * n, e) || InSlots(T.t2, T.storage, 0, 8 * n, e)
    decreases n
  {
    if n > 0 {
      var lo, hi := 8 * (n - 1), 8 * n;
      DumpExact(T, n - 1);
      RowExact(T.t1, T.storage, lo, hi);
      RowExact(T.t2, T.storage, lo, hi);
      var a, b, c := AllEntries(T, n - 1), Row(T.t1, T.storage, lo, hi), Row(T.t2, T.storage, lo, hi);
      KeysApartConcat(a, b);
      KeysApartConcat(a + b, c);
      forall e ensures e in a + b + c <==>
                       InSlots(T.t1, T.storage, 0, hi, e) || InSlots(T.t2, T.storage, 0, hi, e)
      {
        SplitSlots(T.t1, T.storage, 0, lo, hi, e);
        SplitSlots(T.t2, T.storage, 0, lo, hi, e);
      }
    }
  }

  lemma SplitSlots(t: seq<Slot>, storage: seq<Entry>, lo: nat, mid: nat, hi: nat, e: Entry)
    requires lo <= mid <= hi <= |t| && InRange(t, |storage|)
    ensures InSlots(t, storage, lo, hi, e) <==> InSlots(t, storage, lo, mid, e) || InSlots(t, storage, mid, hi, e)
  {
  }

  /** The dump lists every live entry exactly once and nothing else. */
  lemma AllEntriesExact(T: Table, H: Hashes)
    requires Valid(T, H)
    ensures var es := AllEntries(T, T.size);
            && KeysApart(es)
            && (forall e :: e in es ==> e.key in View(T, H) && View(T, H)[e.key] == e.payload)
            && (forall k :: k in View(T, H) ==> exists e :: e in es && e.key == k)
  {
    hide AllEntries, SlotKeysApart, TablesApart, KeysApart;
    ValidApart(T, H);
    DumpExact(T, T.size);
    IndicesAt(T.t1);
    IndicesAt(T.t2);
    var es := AllEntries(T, T.size);
    forall k | k in View(T, H) ensures exists e :: e in es && e.key == k {
      var i := Holder(Slotted(T), T.storage, k);
      assert T.storage[i] in es by { SlottedListed(T, i); }
    }
  }

  /** No two slots of a valid table hold the same key. */
  lemma ValidApart(T: Table, H: Hashes)
    requires Valid(T, H)
    ensures TablesApart(T)
  {
    IndicesAt(T.t1);
    IndicesAt(T.t2);
  }

  lemma SlottedListed(T: Table, i: nat)
    requires Shape(T) && TablesApart(T) && i in Slotted(T)
    ensures i < |T.storage| && T.storage[i] in AllEntries(T, T.size)
  {
    hide AllEntries, SlotKeysApart, TablesApart, KeysApart;
    DumpExact(T, T.size);
    IndicesAt(T.t1);
    IndicesAt(T.t2);
    if i in Indices(T.t1) {
      var p :| 0 <= p < |T.t1| && Full(T.t1[p]) && T.t1[p].index == i;
      assert InSlots(T.t1, T.storage, 0, |T.t1|, T.storage[i]);
    } else {
      var p :| 0 <= p < |T.t2| && Full(T.t2[p]) && T.t2[p].index == i;
      assert InSlots(T.t2, T.storage, 0, |T.t2|, T.storage[i]);
    }
  }

  // ---------------------------------------------------------------------------
  // Runs

  datatype Op = InsertOp(key: string, payload: Bytes) | LookupOp(key: string) | RemoveOp(key: string)

  function Do(T: Table, H: Hashes, op: Op): Table
    requires Shape(T)
  {
    match op
    case InsertOp(k, v) => Insert(T, H, k, v).0
    case LookupOp(k) => Lookup(T, H, k).0
    case RemoveOp(k) => Remove(T, H, k).0
  }

  /** The map an unbounded cache would hold. */
  function Ideal(m: map<string, Bytes>, op: Op): map<string, Bytes> {
    match op
    case InsertOp(k, v) => m[k := v]
    case LookupOp(_) => m
    case RemoveOp(k) => m - {k}
  }

  function IdealRun(m: map<string, Bytes>, ops: seq<Op>): map<string, Bytes>
    decreases |ops|
  {
    if ops == [] then m else IdealRun(Ideal(m, ops[0]), ops[1..])
  }

  /** One operation keeps the invariant and never shows anything an unbounded cache would not. */
  lemma DoSound(T: Table, H: Hashes, op: Op, ideal: map<string, Bytes>)
    requires Valid(T, H) && Submap(View(T, H), ideal)
    ensures Valid(Do(T, H, op), H) && Submap(View(Do(T, H, op), H), Ideal(ideal, op))
  {
    hide Valid, View;
    match op
    case InsertOp(k, v) =>
      var evicted, lost := InsertView(T, H, k, v);
    case LookupOp(k) => LookupView(T, H, k);
    case RemoveOp(k) => RemoveView(T, H, k);
  }

  function Run(T: Table, H: Hashes, ops: seq<Op>): (r: Table)
    requires Valid(T, H)
    ensures Valid(r, H)
    decreases |ops|
  {
    if ops == [] then T
    else
      DoSound(T, H, ops[0], View(T, H));
      Run(Do(T, H, ops[0]), H, ops[1..])
  }

  /**
   In every run the cache is a sub-map of the unbounded cache: whatever it evicts or loses, a hit is
   always the payload last inserted and not removed since.
   */
  lemma {:induction false} RunNeverStale(T: Table, H: Hashes, ops: seq<Op>, ideal: map<string, Bytes>)
    requires Valid(T, H) && Submap(View(T, H), ideal)
    ensures Submap(View(Run(T, H, ops), H), IdealRun(ideal, ops))
    decreases |ops|
  {
    hide Accounted, View, Do;
    if ops != [] {
      DoSound(T, H, ops[0], View(T, H));
      RunNeverStale(Do(T, H, ops[0]), H, ops[1..], Ideal(ideal, ops[0]));
    }
  }
}
