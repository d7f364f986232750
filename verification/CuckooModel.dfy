/**
 The cuckoo cache as a function on values: what each operation makes of the two slot tables,
 the entry arena, the free list and the clock hand.  `CuckooTable` runs the same operations in
 place; everything the cache promises is proved here.
 */
module CuckooModel {
  import opened Options

  type Bytes = seq<bv8>

  /** The two keyed hashes, uninterpreted. */
  datatype Hashes = Hashes(h1: string -> nat, h2: string -> nat)

  datatype Entry = Entry(key: string, payload: Bytes, referenced: bool)

  datatype Slot = Slot(tag: nat, index: nat)

  /** `u32::MAX`, the index of an empty slot. */
  const NO_INDEX: nat := 0xFFFF_FFFF
  const EMPTY := Slot(0, NO_INDEX)
  const MAX_KICKS: nat := 256

  /** Bucket `b` of a table is `t[8 * b..8 * b + 8]`; `free` is the used part of the free list. */
  datatype Table = Table(
    size: nat,
    t1: seq<Slot>,
    t2: seq<Slot>,
    storage: seq<Entry>,
    used: nat,
    free: seq<nat>,
    hand: nat)

  predicate Full(s: Slot) {
    s.index != NO_INDEX
  }

  /** Offset of the first slot of a hash's bucket. */
  function Home(h: nat, size: nat): (b: nat)
    requires size >= 1
    ensures b + 8 <= 8 * size && b % 8 == 0
  {
    8 * (h % size)
  }

  function Tag(h: nat): (t: nat)
    ensures t != 0
  {
    var t := (h / 0x1_0000_0000) % 0x1_0000_0000;
    if t == 0 then 1 else t
  }

  predicate InRange(t: seq<Slot>, n: nat) {
    forall p :: 0 <= p < |t| ==> !Full(t[p]) || t[p].index < n
  }

  /** Sizes and ranges: what keeps every access inside its buffer. */
  predicate Shape(T: Table) {
    && T.size >= 1
    && |T.t1| == |T.t2| == 8 * T.size
    && T.used <= |T.storage| <= NO_INDEX
    && |T.free| <= T.used
    && T.hand <= |T.storage|
    && InRange(T.t1, T.used)
    && InRange(T.t2, T.used)
    && forall i :: 0 <= i < |T.free| ==> T.free[i] < T.used
  }

  function New(size: nat, requested: nat, blank: Entry): Table {
    var limit := size * 16 * 90 / 100;
    var slots := seq(8 * size, _ => EMPTY);
    Table(size, slots, slots, seq(if requested < limit then requested else limit, _ => blank), 0, [], 0)
  }

  // ---------------------------------------------------------------------------
  // Scans of one bucket

  function FindKey(t: seq<Slot>, storage: seq<Entry>, b: nat, tag: nat, key: string, j: nat): (r: Option<nat>)
    requires b + 8 <= |t| && j <= 8 && InRange(t, |storage|)
    ensures r.Some? ==> b + j <= r.value < b + 8 && Full(t[r.value])
                        && t[r.value].tag == tag && storage[t[r.value].index].key == key
    ensures r.None? ==> forall p :: b + j <= p < b + 8 && Full(t[p]) && t[p].tag == tag
                                    ==> storage[t[p].index].key != key
    decreases 8 - j
  {
    if j == 8 then None
    else if Full(t[b + j]) && t[b + j].tag == tag && storage[t[b + j].index].key == key then Some(b + j)
    else FindKey(t, storage, b, tag, key, j + 1)
  }

  function FindIndex(t: seq<Slot>, b: nat, index: nat, j: nat): (r: Option<nat>)
    requires b + 8 <= |t| && j <= 8
    ensures r.Some? ==> b + j <= r.value < b + 8 && t[r.value].index == index
    ensures r.None? ==> forall p :: b + j <= p < b + 8 ==> t[p].index != index
    decreases 8 - j
  {
    if j == 8 then None
    else if t[b + j].index == index then Some(b + j)
    else FindIndex(t, b, index, j + 1)
  }

  datatype Place = Absent | InFirst(pos: nat) | InSecond(pos: nat)

  function Locate(T: Table, H: Hashes, key: string): (w: Place)
    requires Shape(T)
    ensures w.InFirst? ==> w.pos < |T.t1| && Full(T.t1[w.pos]) && T.t1[w.pos].index < |T.storage| && T.storage[T.t1[w.pos].index].key == key
    ensures w.InSecond? ==> w.pos < |T.t2| && Full(T.t2[w.pos]) && T.t2[w.pos].index < |T.storage| && T.storage[T.t2[w.pos].index].key == key
  {
    var tag := Tag(H.h1(key));
    match FindKey(T.t1, T.storage, Home(H.h1(key), T.size), tag, key, 0)
    case Some(p) => InFirst(p)
    case None =>
      match FindKey(T.t2, T.storage, Home(H.h2(key), T.size), tag, key, 0)
      case Some(p) => InSecond(p)
      case None => Absent
  }

  // ---------------------------------------------------------------------------
  // Operations

  /** The CLOCK sweep: clears referenced bits until it meets a clear one, `n` steps at most. */
  function Sweep(storage: seq<Entry>, hand: nat, n: nat): (r: (seq<Entry>, nat, Option<nat>))
    requires n > 0 ==> |storage| > 0
    requires hand <= |storage|
    ensures |r.0| == |storage| && r.1 <= |storage|
    ensures r.2.Some? ==> r.2.value < |storage|
    ensures forall i :: 0 <= i < |storage| ==> r.0[i].key == storage[i].key && r.0[i].payload == storage[i].payload
    decreases n
  {
    if n == 0 then (storage, hand, None)
    else
      var i := if hand >= |storage| then 0 else hand;
      if storage[i].referenced then Sweep(storage[i := storage[i].(referenced := false)], i + 1, n - 1)
      else (storage, i + 1, Some(i))
  }

  /** Empties the slot that holds a storage index, if one of its key's two buckets does. */
  function Unslot(T: Table, H: Hashes, index: nat): (T': Table)
    requires Shape(T) && index < |T.storage|
    ensures Shape(T') && T'.storage == T.storage && T'.used == T.used && T'.free == T.free
  {
    var key := T.storage[index].key;
    match FindIndex(T.t1, Home(H.h1(key), T.size), index, 0)
    case Some(p) => T.(t1 := T.t1[p := EMPTY])
    case None =>
      match FindIndex(T.t2, Home(H.h2(key), T.size), index, 0)
      case Some(p) => T.(t2 := T.t2[p := EMPTY])
      case None => T
  }

  /** A storage index for a new entry: from the free list, from unused storage, or by eviction. */
  function Allocate(T: Table, H: Hashes, entry: Entry): (r: (Table, Option<nat>))
    requires Shape(T)
    ensures Shape(r.0) && r.0.size == T.size && |r.0.storage| == |T.storage|
    ensures r.1.Some? ==> r.1.value < r.0.used && r.0.storage[r.1.value] == entry
  {
    if |T.free| > 0 then
      var i := T.free[|T.free| - 1];
      (T.(free := T.free[..|T.free| - 1], storage := T.storage[i := entry]), Some(i))
    else if T.used < |T.storage| then
      (T.(storage := T.storage[T.used := entry], used := T.used + 1), Some(T.used))
    else
      var (storage, hand, victim) := Sweep(T.storage, T.hand, 2 * |T.storage|);
      var S := T.(storage := storage, hand := hand);
      match victim
      case None => (S, None)
      case Some(i) =>
        var U := Unslot(S, H, i);
        (U.(storage := U.storage[i := entry]), Some(i))
  }

  datatype Displaced = Placed(table: Table) | Dropped(table: Table, slot: Slot)

  /** What the loop does with the entry in hand: a free slot, or a resident to evict. */
  datatype Move = ToFirst(pos: nat) | ToSecond(pos: nat) | Swap(pos: nat)

  function NextMove(T: Table, H: Hashes, i: nat, cur: Slot): (m: Move)
    requires Shape(T) && cur.index < T.used
    ensures var b1 := Home(H.h1(T.storage[cur.index].key), T.size);
            var b2 := Home(H.h2(T.storage[cur.index].key), T.size);
            && (m.ToFirst? ==> b1 <= m.pos < b1 + 8 && !Full(T.t1[m.pos]))
            && (!m.ToFirst? ==> forall p :: b1 <= p < b1 + 8 ==> Full(T.t1[p]))
            && (m.ToSecond? ==> b2 <= m.pos < b2 + 8 && !Full(T.t2[m.pos]))
            && (m.Swap? ==> b1 <= m.pos < b1 + 8 && Full(T.t1[m.pos]) && T.t1[m.pos].index < T.used)
            && (m.Swap? ==> forall p :: b2 <= p < b2 + 8 ==> Full(T.t2[p]))
  {
    var key := T.storage[cur.index].key;
    var h1 := H.h1(key);
    var b1 := Home(h1, T.size);
    match FindIndex(T.t1, b1, NO_INDEX, 0)
    case Some(p) => ToFirst(p)
    case None =>
      match FindIndex(T.t2, Home(H.h2(key), T.size), NO_INDEX, 0)
      case Some(p) => ToSecond(p)
      case None => Swap(b1 + (h1 + cur.index + i) % 8)
  }

  /** The displacement loop from kick `i` on, with `cur` looking for a slot. */
  function Displace(T: Table, H: Hashes, i: nat, cur: Slot): (r: Displaced)
    requires Shape(T) && i <= MAX_KICKS && cur.index < T.used
    ensures Shape(r.table)
    decreases MAX_KICKS - i
  {
    if i == MAX_KICKS then Dropped(T, cur)
    else
      match NextMove(T, H, i, cur)
      case ToFirst(p) => Placed(T.(t1 := T.t1[p := cur]))
      case ToSecond(p) => Placed(T.(t2 := T.t2[p := cur]))
      case Swap(p) => Displace(T.(t1 := T.t1[p := cur]), H, i + 1, T.t1[p])
  }

  function Insert(T: Table, H: Hashes, key: string, payload: Bytes): (r: (Table, bool))
    requires Shape(T)
    ensures Shape(r.0)
  {
    var entry := Entry(key, payload, true);
    match Locate(T, H, key)
    case InFirst(p) => (T.(storage := T.storage[T.t1[p].index := entry]), true)
    case InSecond(p) => (T.(storage := T.storage[T.t2[p].index := entry]), true)
    case Absent =>
      var (A, index) := Allocate(T, H, entry);
      match index
      case None => (A, false)
      case Some(i) =>
        match Displace(A, H, 0, Slot(Tag(H.h1(key)), i))
        case Placed(D) => (D, true)
        case Dropped(D, _) => (D, false)
  }

  function Lookup(T: Table, H: Hashes, key: string): (r: (Table, Option<Bytes>))
    requires Shape(T)
    ensures Shape(r.0)
  {
    match Locate(T, H, key)
    case InFirst(p) =>
      var i := T.t1[p].index;
      (T.(storage := T.storage[i := T.storage[i].(referenced := true)]), Some(T.storage[i].payload))
    case InSecond(p) =>
      var i := T.t2[p].index;
      (T.(storage := T.storage[i := T.storage[i].(referenced := true)]), Some(T.storage[i].payload))
    case Absent => (T, None)
  }

  function Remove(T: Table, H: Hashes, key: string): (r: (Table, bool))
    requires Shape(T)
  {
    match Locate(T, H, key)
    case InFirst(p) => (T.(t1 := T.t1[p := EMPTY], free := T.free + [T.t1[p].index]), true)
    case InSecond(p) => (T.(t2 := T.t2[p := EMPTY], free := T.free + [T.t2[p].index]), true)
    case Absent => (T, false)
  }

  /** The entries of full slots among `t[p..end]`, in order. */
  function Row(t: seq<Slot>, storage: seq<Entry>, p: nat, end: nat): seq<Entry>
    requires p <= end <= |t| && InRange(t, |storage|)
    decreases end - p
  {
    if p == end then []
    else (if Full(t[p]) then [storage[t[p].index]] else []) + Row(t, storage, p + 1, end)
  }

  /** All live entries of the first `n` bucket pairs, in the order the dump visits them. */
  function AllEntries(T: Table, n: nat): seq<Entry>
    requires Shape(T) && n <= T.size
  {
    if n == 0 then []
    else AllEntries(T, n - 1)
         + Row(T.t1, T.storage, 8 * (n - 1), 8 * n)
         + Row(T.t2, T.storage, 8 * (n - 1), 8 * n)
  }
}
