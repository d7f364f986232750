/**
 When displacement succeeds.  The entries that pass through the hand of an insert are described on
 their own, as a sequence that only the new entry, its home bucket and the first hash determine; the
 insert is then shown to answer true exactly when one of the first 256 of them finds room.
 */
module CuckooChain {
  import opened Options
  import opened CuckooModel
  import opened CuckooTheorems

  /** The key behind a slot. */
  function KeyOf(storage: seq<Entry>, s: Slot): string {
    if s.index < |storage| then storage[s.index].key else ""
  }

  /** A bucket of eight slots and the slot in hand. */
  datatype Chain = Chain(bucket: seq<Slot>, hand: Slot)

  /**
   The chain after `n` kicks: hand 0 is the new entry; hand i + 1 is what lies in the bucket at
   position (first hash of hand i's key + hand i's index + i) mod 8, and hand i takes its place.
   */
  function Hands(bucket: seq<Slot>, storage: seq<Entry>, H: Hashes, cur: Slot, n: nat): (c: Chain)
    requires |bucket| == 8
    ensures |c.bucket| == 8
  {
    if n == 0 then Chain(bucket, cur)
    else
      var c := Hands(bucket, storage, H, cur, n - 1);
      var v := (H.h1(KeyOf(storage, c.hand)) + c.hand.index + n - 1) % 8;
      Chain(c.bucket[v := c.hand], c.bucket[v])
  }

  /** The home bucket, in the first table, of the entry in hand. */
  function HomeBucket(T: Table, H: Hashes, cur: Slot): (b: seq<Slot>)
    requires Shape(T)
    ensures |b| == 8
  {
    var b := Home(H.h1(KeyOf(T.storage, cur)), T.size);
    T.t1[b..b + 8]
  }

  function HandAt(T: Table, H: Hashes, cur: Slot, n: nat): Slot
    requires Shape(T)
  {
    Hands(HomeBucket(T, H, cur), T.storage, H, cur, n).hand
  }

  /** An entry has an empty slot in its bucket of the second table. */
  predicate FitsSecond(T: Table, H: Hashes, s: Slot)
    requires Shape(T)
  {
    !BucketFull(T.t2, Home(H.h2(KeyOf(T.storage, s)), T.size))
  }

  /** The table while hand `n` is in hand. */
  function During(T: Table, H: Hashes, cur: Slot, n: nat): Table
    requires Shape(T)
  {
    var b := Home(H.h1(KeyOf(T.storage, cur)), T.size);
    T.(t1 := T.t1[..b] + Hands(HomeBucket(T, H, cur), T.storage, H, cur, n).bucket + T.t1[b + 8..])
  }

  lemma FloatingIndex(T: Table, H: Hashes, cur: Slot)
    requires Floating(T, H, cur)
    ensures Shape(T) && cur.index < T.used <= |T.storage|
  {
  }

  /** Where hand `n` goes. */
  function Position(T: Table, H: Hashes, cur: Slot, n: nat): (p: nat)
    requires Shape(T)
    ensures var b := Home(H.h1(KeyOf(T.storage, cur)), T.size); b <= p < b + 8
  {
    var hand := HandAt(T, H, cur, n);
    Home(H.h1(KeyOf(T.storage, cur)), T.size) + (H.h1(KeyOf(T.storage, hand)) + hand.index + n) % 8
  }

  lemma KickedTable(T: Table, H: Hashes, cur: Slot, n: nat)
    requires Shape(T)
    ensures var D, p := During(T, H, cur, n), Position(T, H, cur, n);
            && During(T, H, cur, n + 1) == D.(t1 := D.t1[p := HandAt(T, H, cur, n)])
            && HandAt(T, H, cur, n + 1) == D.t1[p]
  {
    hide Home, InRange;
    var b := Home(H.h1(KeyOf(T.storage, cur)), T.size);
    var c, c' := Hands(HomeBucket(T, H, cur), T.storage, H, cur, n), Hands(HomeBucket(T, H, cur), T.storage, H, cur, n + 1);
    var D, p := During(T, H, cur, n), Position(T, H, cur, n);
    assert D.t1[p] == c.bucket[p - b];
    assert T.t1[..b] + c.bucket[p - b := c.hand] + T.t1[b + 8..] == D.t1[p := c.hand];
  }

  lemma StillFull(T: Table, H: Hashes, hand: Slot, b: nat, p: nat)
    requires Floating(T, H, hand) && b + 8 <= |T.t1| && b <= p < b + 8 && BucketFull(T.t1, b)
    ensures BucketFull(T.t1[p := hand], b) && Full(T.t1[p])
  {
    hide Accounted, Slotted, FreeSet, KeysOf, InRange, Tag;
  }

  /** After any number of kicks the hand is a displaced entry of the same first bucket, which is full. */
  lemma {:induction false} ChainState(T: Table, H: Hashes, cur: Slot, n: nat)
    requires Floating(T, H, cur) && BucketFull(T.t1, Home(H.h1(T.storage[cur.index].key), T.size))
    ensures var D, hand := During(T, H, cur, n), HandAt(T, H, cur, n);
            var b := Home(H.h1(T.storage[cur.index].key), T.size);
            && Floating(D, H, hand) && D == T.(t1 := D.t1) && |D.t1| == |T.t1|
            && Home(H.h1(T.storage[hand.index].key), T.size) == b && BucketFull(D.t1, b)
    decreases n
  {
    hide Accounted, Slotted, FreeSet, KeysOf, InRange, Tag, During, HandAt, Position, Home, BucketFull;
    FloatingIndex(T, H, cur);
    StartOfChain(T, H, cur);
    if n > 0 {
      ChainState(T, H, cur, n - 1);
      var D, hand := During(T, H, cur, n - 1), HandAt(T, H, cur, n - 1);
      var p := Position(T, H, cur, n - 1);
      KickedTable(T, H, cur, n - 1);
      StillFull(D, H, hand, Home(H.h1(T.storage[cur.index].key), T.size), p);
      Kick(D, H, hand, p);
    }
  }

  /** The loop reaches kick `n` with hand `n` if no earlier hand fitted. */
  lemma {:induction false} DisplaceReaches(T: Table, H: Hashes, cur: Slot, n: nat)
    requires Floating(T, H, cur) && BucketFull(T.t1, Home(H.h1(T.storage[cur.index].key), T.size)) && n <= 256
    requires forall i: nat :: i < n ==> !FitsSecond(T, H, HandAt(T, H, cur, i))
    ensures var D, hand := During(T, H, cur, n), HandAt(T, H, cur, n);
            Shape(D) && hand.index < D.used && Displace(T, H, 0, cur) == Displace(D, H, n, hand)
    decreases n
  {
    hide Accounted, Slotted, FreeSet, KeysOf, InRange, Tag, NextMove, During, HandAt, Position;
    ChainState(T, H, cur, n);
    FloatingIndex(During(T, H, cur, n), H, HandAt(T, H, cur, n));
    if n == 0 {
      StartOfChain(T, H, cur);
    } else {
      DisplaceReaches(T, H, cur, n - 1);
      ChainState(T, H, cur, n - 1);
      KickedTable(T, H, cur, n - 1);
      SwapNext(T, H, cur, n - 1);
    }
  }

  lemma StartOfChain(T: Table, H: Hashes, cur: Slot)
    requires Floating(T, H, cur)
    ensures During(T, H, cur, 0) == T && HandAt(T, H, cur, 0) == cur
  {
    hide Accounted, Slotted, FreeSet, KeysOf, InRange, Tag;
    assert During(T, H, cur, 0).t1 == T.t1;
  }

  /** A hand that does not fit is swapped where the chain says. */
  lemma SwapNext(T: Table, H: Hashes, cur: Slot, n: nat)
    requires Floating(T, H, cur) && BucketFull(T.t1, Home(H.h1(T.storage[cur.index].key), T.size)) && n < 256
    requires !FitsSecond(T, H, HandAt(T, H, cur, n))
    ensures var D, hand := During(T, H, cur, n), HandAt(T, H, cur, n);
            Shape(D) && hand.index < D.used && NextMove(D, H, n, hand) == Swap(Position(T, H, cur, n))
  {
    hide Accounted, Slotted, FreeSet, KeysOf, InRange, Tag, During, HandAt, Home;
    ChainState(T, H, cur, n);
    FloatingIndex(T, H, cur);
    FloatingIndex(During(T, H, cur, n), H, HandAt(T, H, cur, n));
  }

  /** The first of 256 hands that fits, or 256. */
  lemma FirstFit(T: Table, H: Hashes, cur: Slot) returns (i: nat)
    requires Shape(T)
    ensures i <= 256 && (i < 256 ==> FitsSecond(T, H, HandAt(T, H, cur, i)))
    ensures forall j: nat :: j < i ==> !FitsSecond(T, H, HandAt(T, H, cur, j))
  {
    hide FitsSecond, HandAt;
    i := 0;
    while i < 256 && !FitsSecond(T, H, HandAt(T, H, cur, i))
      invariant i <= 256
      invariant forall j: nat :: j < i ==> !FitsSecond(T, H, HandAt(T, H, cur, j))
    {
      i := i + 1;
    }
  }

  /** `p` is the first empty slot of the bucket at `b`. */
  predicate FirstEmpty(t: seq<Slot>, b: nat, p: nat)
    requires b + 8 <= |t|
  {
    b <= p < b + 8 && !Full(t[p]) && forall q :: b <= q < p ==> Full(t[q])
  }

  lemma {:induction false} FindEmpty(t: seq<Slot>, b: nat, j: nat)
    requires b + 8 <= |t| && j <= 8 && forall q :: b <= q < b + j ==> Full(t[q])
    ensures var f := FindIndex(t, b, NO_INDEX, j);
            (f.Some? <==> !BucketFull(t, b)) && (f.Some? ==> FirstEmpty(t, b, f.value))
    decreases 8 - j
  {
    if j < 8 && Full(t[b + j]) { FindEmpty(t, b, j + 1); }
  }

  /** How the entry in hand ends up in the second table. */
  lemma PlacedSecond(T: Table, H: Hashes, cur: Slot, i: nat)
    requires Floating(T, H, cur) && BucketFull(T.t1, Home(H.h1(T.storage[cur.index].key), T.size)) && i < 256
    requires FitsSecond(T, H, HandAt(T, H, cur, i))
    ensures var D, hand := During(T, H, cur, i), HandAt(T, H, cur, i);
            && Shape(D) && hand.index < D.used
            && exists q: nat :: FirstEmpty(T.t2, Home(H.h2(KeyOf(T.storage, hand)), T.size), q)
                                && Displace(D, H, i, hand) == Placed(D.(t2 := T.t2[q := hand]))
  {
    hide Accounted, Slotted, FreeSet, KeysOf, InRange, Tag, During, HandAt, Home, FindIndex;
    ChainState(T, H, cur, i);
    FloatingIndex(T, H, cur);
    var D, hand := During(T, H, cur, i), HandAt(T, H, cur, i);
    FloatingIndex(D, H, hand);
    FindEmpty(D.t1, Home(H.h1(T.storage[hand.index].key), T.size), 0);
    FindEmpty(D.t2, Home(H.h2(T.storage[hand.index].key), T.size), 0);
  }

  /**
   What the displacement loop does, exactly.  An empty slot of the first bucket takes the entry; else
   the first of 256 hands with an empty slot in its second bucket takes that slot, everything before it
   having moved up one place in the chain; else hand 256 is dropped.
   */
  ghost predicate DisplaceResult(T: Table, H: Hashes, cur: Slot, r: Displaced)
    requires Shape(T) && cur.index < |T.storage|
  {
    var b := Home(H.h1(T.storage[cur.index].key), T.size);
    if !BucketFull(T.t1, b) then exists p: nat :: FirstEmpty(T.t1, b, p) && r == Placed(T.(t1 := T.t1[p := cur]))
    else
      || (r == Dropped(During(T, H, cur, 256), HandAt(T, H, cur, 256))
          && forall i: nat :: i < 256 ==> !FitsSecond(T, H, HandAt(T, H, cur, i)))
      || exists i: nat, q: nat :: i < 256 && PlacesHand(T, H, cur, i, q, r)
  }

  /** Hand `i` is the first that fits, and takes slot `q` of its second bucket, the first empty one. */
  ghost predicate PlacesHand(T: Table, H: Hashes, cur: Slot, i: nat, q: nat, r: Displaced)
    requires Shape(T)
  {
    var hand := HandAt(T, H, cur, i);
    && (forall j: nat :: j < i ==> !FitsSecond(T, H, HandAt(T, H, cur, j)))
    && FirstEmpty(T.t2, Home(H.h2(KeyOf(T.storage, hand)), T.size), q)
    && r == Placed(During(T, H, cur, i).(t2 := T.t2[q := hand]))
  }

  lemma DisplaceExact(T: Table, H: Hashes, cur: Slot)
    requires Floating(T, H, cur)
    ensures cur.index < |T.storage| && DisplaceResult(T, H, cur, Displace(T, H, 0, cur))
  {
    hide Accounted, Slotted, FreeSet, KeysOf, InRange, Tag, During, HandAt, Home, FindIndex, BucketFull, FitsSecond;
    FloatingIndex(T, H, cur);
    var b := Home(H.h1(T.storage[cur.index].key), T.size);
    FindEmpty(T.t1, b, 0);
    if BucketFull(T.t1, b) {
      var i := FirstFit(T, H, cur);
      DisplaceReaches(T, H, cur, i);
      if i < 256 {
        PlacedSecond(T, H, cur, i);
        var hand := HandAt(T, H, cur, i);
        var q: nat :| FirstEmpty(T.t2, Home(H.h2(KeyOf(T.storage, hand)), T.size), q)
                      && Displace(T, H, 0, cur) == Placed(During(T, H, cur, i).(t2 := T.t2[q := hand]));
        assert PlacesHand(T, H, cur, i, q, Displace(T, H, 0, cur));
      }
    }
  }

  /** So displacement succeeds exactly when the entry or one of the hands after it fits. */
  lemma PlacedIff(T: Table, H: Hashes, cur: Slot)
    requires Floating(T, H, cur)
    ensures cur.index < |T.storage|
    ensures var r := Displace(T, H, 0, cur);
            && (r.Placed? <==>
                || !BucketFull(T.t1, Home(H.h1(T.storage[cur.index].key), T.size))
                || exists i: nat :: i < 256 && FitsSecond(T, H, HandAt(T, H, cur, i)))
            && (r.Dropped? ==> r.slot == HandAt(T, H, cur, 256))
  {
    hide Accounted, Slotted, FreeSet, KeysOf, InRange, Tag, During, HandAt, Home, Displace;
    DisplaceExact(T, H, cur);
    var r := Displace(T, H, 0, cur);
    if i: nat, q: nat :| i < 256 && PlacesHand(T, H, cur, i, q, r) {
      assert FitsSecond(T, H, HandAt(T, H, cur, i));
    }
  }

  /**
   The exact answer of an insert of a new key.  With its entry in the arena, it answers true exactly
   when its first bucket has an empty slot or one of the first 256 hands has one in its second
   bucket; on false the key lost is that of hand 256.
   */
  lemma InsertExact(T: Table, H: Hashes, key: string, payload: Bytes)
    requires Valid(T, H) && key !in View(T, H) && |T.storage| > 0
    ensures var (A, got) := Allocate(T, H, Entry(key, payload, true));
            got.Some? &&
            var cur := Slot(Tag(H.h1(key)), got.value);
            var (D, ok) := Insert(T, H, key, payload);
            && Floating(A, H, cur) && A.storage[cur.index] == Entry(key, payload, true)
            && DisplaceResult(A, H, cur, if ok then Placed(D) else Dropped(D, HandAt(A, H, cur, 256)))
            && (ok <==>
                || !BucketFull(A.t1, Home(H.h1(key), T.size))
                || exists i: nat :: i < 256 && FitsSecond(A, H, HandAt(A, H, cur, i)))
            && Valid(D, H)
            && View(D, H) == View(A, H)[key := payload] - (if ok then {} else {KeyOf(A.storage, HandAt(A, H, cur, 256))})
  {
    hide Accounted, Slotted, ViewOf, Displace, Allocate, Tag, Locate, FreeSet, ClockChose, Home, HandAt, During,
      BucketFull, FitsSecond, DisplaceResult, InRange, Evicted, KeysOf;
    var entry := Entry(key, payload, true);
    ValidKeys(T, H);
    LocateExact(T, H, key);
    AllocateSound(T, H, entry);
    var (A, got) := Allocate(T, H, entry);
    var cur := Slot(Tag(H.h1(key)), got.value);
    DisplaceView(A, H, cur);
    DisplaceExact(A, H, cur);
    PlacedIff(A, H, cur);
    var full := View(A, H)[key := payload];
    assert full - {} == full;
  }

  /** An insert that answers true leaves the key's entry with the new payload and marked as used. */
  lemma InsertMarks(T: Table, H: Hashes, key: string, payload: Bytes)
    requires Valid(T, H)
    ensures var (D, ok) := Insert(T, H, key, payload);
            ok ==> exists i :: i in Slotted(D) && i < |D.storage| && D.storage[i] == Entry(key, payload, true)
  {
    hide Accounted, ViewOf, Displace, Allocate, Tag, Home, FreeSet, Evicted, KeysOf, Slotted, InRange, Locate;
    ValidKeys(T, H);
    LocateExact(T, H, key);
    var D := Insert(T, H, key, payload).0;
    if key in View(T, H) {
      var w := Locate(T, H, key);
      var i := if w.InFirst? then T.t1[w.pos].index else T.t2[w.pos].index;
      SameSlots(T, D);
      assert D.storage[i] == Entry(key, payload, true);
    } else {
      AllocateSound(T, H, Entry(key, payload, true));
      var (A, got) := Allocate(T, H, Entry(key, payload, true));
      if got.Some? { DisplaceView(A, H, Slot(Tag(H.h1(key)), got.value)); }
    }
  }

  lemma SameSlots(T: Table, D: Table)
    requires D.t1 == T.t1 && D.t2 == T.t2
    ensures Slotted(D) == Slotted(T)
  {
  }
}
