/**
 The cuckoo cache as the engine runs it: two slot tables, an entry arena and a free list, all
 allocated once and updated in place.  Each method is proved to do to the arrays exactly what
 `CuckooModel` says; `Valid` and `View` then come from `CuckooTheorems`.
 */
module CuckooTable {
  import opened Options
  import opened Maps
  import opened CuckooModel
  import Theory = CuckooTheorems

  class CuckooTable {
    const hashes: Hashes
    const size: nat
    const table1: array<Slot>
    const table2: array<Slot>
    const storage: array<Entry>
    const freeList: array<nat>
    var storageSize: nat
    var freeListSize: nat
    var clockHand: nat

    ghost function Repr(): set<object> {
      {this, table1, table2, storage, freeList}
    }

    ghost predicate Apart() {
      && table1 != table2 && table1 as object != storage && table2 as object != storage
      && table1 as object != freeList && table2 as object != freeList && storage as object != freeList
    }

    ghost function Snapshot(): Table
      reads this, Repr()
      requires freeListSize <= freeList.Length
    {
      Table(size, table1[..], table2[..], storage[..], storageSize, freeList[..freeListSize], clockHand)
    }

    /** The buffers are separate and every access stays in range. */
    ghost predicate Ready()
      reads this, Repr()
    {
      && Apart()
      && freeListSize <= freeList.Length && freeList.Length == storage.Length
      && Shape(Snapshot())
    }

    ghost predicate Valid()
      reads this, Repr()
    {
      Ready() && Theory.Valid(Snapshot(), hashes)
    }

    ghost function View(): map<string, Bytes>
      reads this, Repr()
      requires Valid()
    {
      Theory.View(Snapshot(), hashes)
    }

    constructor (size: nat, requested: nat, hashes: Hashes)
      requires size >= 1
      requires requested <= NO_INDEX || size * 16 * 90 / 100 <= NO_INDEX
      ensures Valid() && fresh(Repr())
      ensures this.hashes == hashes && this.size == size
      ensures Snapshot() == New(size, requested, Entry("", [], false)) && View() == map[]
    {
      var blank := Entry("", [], false);
      var limit := size * 16 * 90 / 100;
      var max := if requested < limit then requested else limit;
      this.hashes := hashes;
      this.size := size;
      table1 := new Slot[8 * size](_ => EMPTY);
      table2 := new Slot[8 * size](_ => EMPTY);
      storage := new Entry[max](_ => blank);
      freeList := new nat[max];
      storageSize, freeListSize, clockHand := 0, 0, 0;
      new;
      Theory.NewValid(size, requested, blank, hashes);
      assert Snapshot() == New(size, requested, blank);
    }

    /** First slot of the bucket at `b` whose tag and key match. */
    method FindKeySlot(t: array<Slot>, b: nat, tag: nat, key: string) returns (r: Option<nat>)
      requires b + 8 <= t.Length && InRange(t[..], storage.Length)
      ensures r == FindKey(t[..], storage[..], b, tag, key, 0)
    {
      for j := 0 to 8
        invariant FindKey(t[..], storage[..], b, tag, key, 0) == FindKey(t[..], storage[..], b, tag, key, j)
      {
        var s := t[b + j];
        if s.index != NO_INDEX && s.tag == tag {
          if storage[s.index].key == key {
            return Some(b + j);
          }
        }
      }
      return None;
    }

    /** First slot of the bucket at `b` that holds `index`; `NO_INDEX` looks for a free slot. */
    method FindIndexSlot(t: array<Slot>, b: nat, index: nat) returns (r: Option<nat>)
      requires b + 8 <= t.Length
      ensures r == FindIndex(t[..], b, index, 0)
    {
      for j := 0 to 8
        invariant FindIndex(t[..], b, index, 0) == FindIndex(t[..], b, index, j)
      {
        if t[b + j].index == index {
          return Some(b + j);
        }
      }
      return None;
    }

    method LocateKey(key: string) returns (w: Place)
      requires Ready()
      ensures w == Locate(Snapshot(), hashes, key)
    {
      var h1 := hashes.h1(key);
      var f := FindKeySlot(table1, Home(h1, size), Tag(h1), key);
      if f.Some? {
        return InFirst(f.value);
      }
      f := FindKeySlot(table2, Home(hashes.h2(key), size), Tag(h1), key);
      w := if f.Some? then InSecond(f.value) else Absent;
    }

    /** The CLOCK sweep over the arena. */
    method SweepClock() returns (victim: Option<nat>)
      requires Ready()
      modifies this`clockHand, storage
      ensures Ready()
      ensures (storage[..], clockHand, victim) == Sweep(old(storage[..]), old(clockHand), 2 * storage.Length)
      ensures Snapshot() == old(Snapshot()).(storage := storage[..], hand := clockHand)
    {
      hide InRange, Sweep;
      ghost var goal := Sweep(storage[..], clockHand, 2 * storage.Length);
      var n: nat := 2 * storage.Length;
      while n > 0
        invariant clockHand <= storage.Length
        invariant n > 0 ==> storage.Length > 0
        invariant goal == Sweep(storage[..], clockHand, n)
      {
        if clockHand >= storage.Length {
          clockHand := 0;
        }
        var i := clockHand;
        clockHand := clockHand + 1;
        ghost var before := storage[..];
        Theory.SweepStep(before, i, n);
        if storage[i].referenced {
          storage[i] := storage[i].(referenced := false);
          assert storage[..] == before[i := before[i].(referenced := false)];
        } else {
          return Some(i);
        }
        n := n - 1;
      }
      Theory.SweepNone(storage[..], clockHand);
      return None;
    }

    method UnslotIndex(index: nat)
      requires Ready() && index < storage.Length && index != NO_INDEX
      modifies table1, table2
      ensures Ready()
      ensures Snapshot() == Unslot(old(Snapshot()), hashes, index)
    {
      var key := storage[index].key;
      var f := FindIndexSlot(table1, Home(hashes.h1(key), size), index);
      if f.Some? {
        table1[f.value] := EMPTY;
      } else {
        f := FindIndexSlot(table2, Home(hashes.h2(key), size), index);
        if f.Some? {
          table2[f.value] := EMPTY;
        }
      }
    }

    /** An index for the new entry: free list, then unused storage, then eviction. */
    method AllocateEntry(entry: Entry) returns (got: Option<nat>)
      requires Ready()
      modifies this, table1, table2, storage
      ensures Ready()
      ensures (Snapshot(), got) == Allocate(old(Snapshot()), hashes, entry)
    {
      ghost var before := Snapshot();
      if freeListSize > 0 {
        freeListSize := freeListSize - 1;
        var i := freeList[freeListSize];
        storage[i] := entry;
        assert storage[..] == before.storage[i := entry];
        assert freeList[..freeListSize] == before.free[..|before.free| - 1];
        return Some(i);
      } else if storageSize < storage.Length {
        var i := storageSize;
        storageSize := storageSize + 1;
        storage[i] := entry;
        return Some(i);
      }
      got := SweepClock();
      if got.Some? {
        UnslotIndex(got.value);
        storage[got.value] := entry;
      }
    }

    method SetSlot(t: array<Slot>, p: nat, s: Slot)
      requires Ready() && (t == table1 || t == table2) && p < t.Length && (!Full(s) || s.index < storageSize)
      modifies t
      ensures Ready()
      ensures Snapshot() == old(Snapshot()).(
                t1 := if t == table1 then old(table1[..])[p := s] else old(table1[..]),
                t2 := if t == table2 then old(table2[..])[p := s] else old(table2[..]))
    {
      t[p] := s;
    }

    /** One round of the displacement loop: a free slot for `cur`, or a swap that puts `out` in hand. */
    method PlaceOrSwap(i: nat, cur: Slot, key: string) returns (placed: bool, out: Slot)
      requires Ready() && cur.index < storageSize && key == storage[cur.index].key
      modifies table1, table2
      ensures Ready()
      ensures var before := old(Snapshot());
              match NextMove(before, hashes, i, cur)
              case ToFirst(p) => placed && Snapshot() == before.(t1 := before.t1[p := cur])
              case ToSecond(p) => placed && Snapshot() == before.(t2 := before.t2[p := cur])
              case Swap(p) => !placed && Snapshot() == before.(t1 := before.t1[p := cur]) && out == before.t1[p]
                              && out.index < storageSize
    {
      hide InRange;
      out := cur;
      ghost var move := NextMove(Snapshot(), hashes, i, cur);
      var h1 := hashes.h1(key);
      var b1 := Home(h1, size);
      var f := FindIndexSlot(table1, b1, NO_INDEX);
      if f.Some? {
        SetSlot(table1, f.value, cur);
        return true, out;
      }
      f := FindIndexSlot(table2, Home(hashes.h2(key), size), NO_INDEX);
      if f.Some? {
        SetSlot(table2, f.value, cur);
        return true, out;
      }
      var v := b1 + (h1 + cur.index + i) % 8;
      out := table1[v];
      assert move == Swap(v) && table1[..][v] == out;
      SetSlot(table1, v, cur);
      placed := false;
    }

    /** The displacement loop for an entry already in storage; true when everything found a slot. */
    method DisplaceSlot(start: Slot) returns (placed: bool)
      requires Ready() && start.index < storageSize
      modifies table1, table2
      ensures Ready()
      ensures var r := Displace(old(Snapshot()), hashes, 0, start);
              Snapshot() == r.table && placed == r.Placed?
    {
      hide NextMove, InRange;
      var cur := start;
      var curKey := storage[start.index].key;
      ghost var goal := Displace(Snapshot(), hashes, 0, start);
      for i := 0 to MAX_KICKS
        invariant Ready() && cur.index < storageSize && curKey == storage[cur.index].key
        invariant goal == Displace(Snapshot(), hashes, i, cur)
      {
        var done, out := PlaceOrSwap(i, cur, curKey);
        if done {
          return true;
        }
        cur := out;
        curKey := storage[cur.index].key;
      }
      return false;
    }

    method OverwriteEntry(i: nat, entry: Entry)
      requires Ready() && i < storage.Length
      modifies storage
      ensures Ready() && Snapshot() == old(Snapshot()).(storage := old(storage[..])[i := entry])
    {
      storage[i] := entry;
    }

    method InsertEntry(key: string, payload: Bytes) returns (ok: bool)
      requires Ready()
      modifies this, table1, table2, storage
      ensures Ready()
      ensures (Snapshot(), ok) == CuckooModel.Insert(old(Snapshot()), hashes, key, payload)
    {
      hide Allocate, Displace, Shape;
      var entry := Entry(key, payload, true);
      var w := LocateKey(key);
      if w.InFirst? {
        OverwriteEntry(table1[w.pos].index, entry);
        return true;
      } else if w.InSecond? {
        OverwriteEntry(table2[w.pos].index, entry);
        return true;
      }
      var got := AllocateEntry(entry);
      if got.None? {
        return false;
      }
      ok := DisplaceSlot(Slot(Tag(hashes.h1(key)), got.value));
    }

    /** Stores a payload under a key; false when displacement gave up. */
    method Insert(key: string, payload: Bytes) returns (ok: bool)
      requires Valid()
      modifies this, table1, table2, storage
      ensures Valid()
      ensures (Snapshot(), ok) == CuckooModel.Insert(old(Snapshot()), hashes, key, payload)
      ensures Submap(View(), old(View())[key := payload])
      ensures ok ==> key in View() && View()[key] == payload
    {
      hide Theory.Accounted, Theory.View, CuckooModel.Insert, Shape;
      ghost var before := Snapshot();
      ok := InsertEntry(key, payload);
      ghost var evicted, lost := Theory.InsertView(before, hashes, key, payload);
    }

    /** The payload under a key, marking the entry as recently used. */
    method Lookup(key: string) returns (r: Option<Bytes>)
      requires Valid()
      modifies storage
      ensures Valid() && View() == old(View())
      ensures (Snapshot(), r) == CuckooModel.Lookup(old(Snapshot()), hashes, key)
      ensures r == if key in View() then Some(View()[key]) else None
    {
      hide Theory.Accounted, Theory.View, Shape;
      ghost var before := Snapshot();
      Theory.LookupView(before, hashes, key);
      var w := LocateKey(key);
      if w.Absent? {
        return None;
      }
      var i := if w.InFirst? then table1[w.pos].index else table2[w.pos].index;
      r := Some(storage[i].payload);
      OverwriteEntry(i, storage[i].(referenced := true));
    }

    method FreeSlot(t: array<Slot>, p: nat)
      requires Ready() && (t == table1 || t == table2) && p < t.Length && Full(t[p]) && freeListSize < freeList.Length
      requires freeListSize < storageSize
      modifies this`freeListSize, t, freeList
      ensures Ready()
      ensures Snapshot() == old(Snapshot()).(
                t1 := if t == table1 then old(table1[..])[p := EMPTY] else old(table1[..]),
                t2 := if t == table2 then old(table2[..])[p := EMPTY] else old(table2[..]),
                free := old(Snapshot()).free + [old(t[p]).index])
    {
      var index := t[p].index;
      t[p] := EMPTY;
      freeList[freeListSize] := index;
      freeListSize := freeListSize + 1;
    }

    /** Drops a key; its storage index goes to the free list, which has room for it. */
    method Remove(key: string) returns (ok: bool)
      requires Valid()
      modifies this`freeListSize, table1, table2, freeList
      ensures Valid() && View() == old(View()) - {key}
      ensures (Snapshot(), ok) == CuckooModel.Remove(old(Snapshot()), hashes, key)
      ensures ok <==> key in old(View())
    {
      hide Theory.Accounted, Theory.View;
      ghost var before := Snapshot();
      Theory.RemoveView(before, hashes, key);
      var w := LocateKey(key);
      if w.InFirst? {
        FreeSlot(table1, w.pos);
        return true;
      } else if w.InSecond? {
        FreeSlot(table2, w.pos);
        return true;
      }
      return false;
    }

    method CollectBucket(t: array<Slot>, b: nat) returns (es: seq<Entry>)
      requires b + 8 <= t.Length && InRange(t[..], storage.Length)
      ensures es == Row(t[..], storage[..], b, b + 8)
    {
      es := [];
      ghost var goal := Row(t[..], storage[..], b, b + 8);
      for j := 0 to 8
        invariant goal == es + Row(t[..], storage[..], b + j, b + 8)
      {
        var s := t[b + j];
        if s.index != NO_INDEX {
          es := es + [storage[s.index]];
        }
      }
    }

    /** Every live entry, bucket pair by bucket pair. */
    method GetAllEntries() returns (es: seq<Entry>)
      requires Valid()
      ensures es == AllEntries(Snapshot(), size)
      ensures Theory.KeysApart(es)
      ensures forall e :: e in es ==> e.key in View() && View()[e.key] == e.payload
      ensures forall k :: k in View() ==> exists e :: e in es && e.key == k
    {
      hide Theory.Accounted, Theory.View, AllEntries, Theory.KeysApart;
      es := CollectBuckets();
      Theory.AllEntriesExact(Snapshot(), hashes);
    }

    /** The loop over all buckets of both tables. */
    method CollectBuckets() returns (es: seq<Entry>)
      requires Valid()
      ensures es == AllEntries(Snapshot(), size)
    {
      hide Theory.Accounted, Theory.View;
      es := [];
      for i := 0 to size
        invariant es == AllEntries(Snapshot(), i)
      {
        var first := CollectBucket(table1, 8 * i);
        var second := CollectBucket(table2, 8 * i);
        es := es + first + second;
      }
    }
  }
}
