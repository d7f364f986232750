/**
 Dmitry Vyukov's bounded multi-producer multi-consumer ring, as a step system.

 Every thread has its own program counter, and one action performs one shared-memory
 access: a load of a position, a load of a cell's sequence number, a compare-and-swap,
 the write or the read of a cell's data, or the store that publishes or releases a cell.
 A position load may return any older value (it is relaxed) and a compare-and-swap may
 fail spuriously (it is the weak form).  Positions are unbounded.

 `sent` and `delivered` record history: `sent[p]` is the item whose compare-and-swap won
 ticket `p`, and `delivered` lists the completed dequeues in the order they returned.
 */
module LockFreeQueue {
  import opened Arithmetic
  import opened Options

  datatype Cell<T> = Cell(sequence: nat, data: Option<T>)

  datatype Pc<T> =
    | Idle
    | EnqLoadPos(item: T)
    | EnqLoadSeq(item: T, pos: nat)
    | EnqCas(item: T, pos: nat)
    | EnqWrite(item: T, pos: nat)
    | EnqPublish(item: T, pos: nat)
    | DeqLoadPos
    | DeqLoadSeq(pos: nat)
    | DeqCas(pos: nat)
    | DeqRead(pos: nat)
    | DeqRelease(pos: nat, item: T)

  datatype Delivery<T> = Delivery(thread: nat, ticket: nat, item: T)

  datatype Queue<T> = Queue(
    cells: seq<Cell<T>>,
    enqueuePos: nat,
    dequeuePos: nat,
    threads: seq<Pc<T>>,
    sent: seq<T>,
    delivered: seq<Delivery<T>>)

  datatype Action<T> =
    | CallEnqueue(item: T)
    | CallDequeue
    | LoadPos(seen: nat)
    | LoadSeq
    | Cas(won: bool)
    | AccessData
    | StoreSeq

  // ---------------------------------------------------------------------------
  // Slots

  /** The cell used by a position; `SlotIsMod` and `MaskIsMod` tie it to `pos & mask`. */
  function Slot(pos: nat, capacity: nat): (c: nat)
    requires capacity >= 1
    ensures c < capacity
    decreases pos
  {
    if pos < capacity then pos else Slot(pos - capacity, capacity)
  }

  lemma {:induction false} SlotIsMod(pos: nat, capacity: nat)
    requires capacity >= 1
    ensures Slot(pos, capacity) == pos % capacity
    decreases pos
  {
    if pos >= capacity {
      SlotIsMod(pos - capacity, capacity);
      ModShift(pos - capacity, capacity);
    }
  }

  /** For a power-of-two capacity the source's mask picks exactly `Slot`'s cell. */
  lemma MaskIsMod(pos: nat, k: nat)
    ensures BitAnd(pos, Pow(2, k) - 1) == Slot(pos, Pow(2, k))
  {
    MaskIsRemainder(pos, k);
    SlotIsMod(pos, Pow(2, k));
  }

  lemma {:induction false} SlotsDiffer(n: nat, m: nat, capacity: nat)
    requires n < m < n + capacity
    ensures Slot(n, capacity) != Slot(m, capacity)
    decreases n
  {
    if n >= capacity {
      SlotsDiffer(n - capacity, m - capacity, capacity);
    }
  }

  /** Positions in one window of `capacity` tickets use different cells. */
  lemma WindowInjective(lo: nat, capacity: nat)
    requires capacity >= 1
    ensures forall n: nat, m: nat ::
              lo <= n < lo + capacity && lo <= m < lo + capacity && n != m ==>
                Slot(n, capacity) != Slot(m, capacity)
  {
    forall n: nat, m: nat | lo <= n < lo + capacity && lo <= m < lo + capacity && n != m
      ensures Slot(n, capacity) != Slot(m, capacity)
    {
      if n < m { SlotsDiffer(n, m, capacity); } else { SlotsDiffer(m, n, capacity); }
    }
  }

  lemma SlotShift(pos: nat, capacity: nat)
    requires capacity >= 1
    ensures Slot(pos + capacity, capacity) == Slot(pos, capacity)
  {
  }

  // ---------------------------------------------------------------------------
  // The step system

  function Init<T>(capacity: nat, threads: nat): (s: Queue<T>)
  {
    Queue(seq(capacity, (i: nat) => Cell(i, None)), 0, 0, seq(threads, _ => Idle), [], [])
  }

  predicate Enabled<T>(s: Queue<T>, t: nat, a: Action<T>)
  {
    && t < |s.threads|
    && |s.cells| >= 1
    && var pc := s.threads[t];
       match a
       case CallEnqueue(_) => pc.Idle?
       case CallDequeue => pc.Idle?
       case LoadPos(seen) =>
         || (pc.EnqLoadPos? && seen <= s.enqueuePos)
         || (pc.DeqLoadPos? && seen <= s.dequeuePos)
       case LoadSeq => pc.EnqLoadSeq? || pc.DeqLoadSeq?
       case Cas(won) =>
         || (pc.EnqCas? && (won ==> pc.pos == s.enqueuePos))
         || (pc.DeqCas? && (won ==> pc.pos == s.dequeuePos))
       case AccessData =>
         || pc.EnqWrite?
         || (pc.DeqRead? && s.cells[Slot(pc.pos, |s.cells|)].data.Some?)
       case StoreSeq => pc.EnqPublish? || pc.DeqRelease?
  }

  function At<T>(s: Queue<T>, pos: nat): Cell<T>
    requires |s.cells| >= 1
  {
    s.cells[Slot(pos, |s.cells|)]
  }

  function SetPc<T>(s: Queue<T>, t: nat, pc: Pc<T>): Queue<T>
    requires t < |s.threads|
  {
    s.(threads := s.threads[t := pc])
  }

  function SetCell<T>(s: Queue<T>, pos: nat, c: Cell<T>): Queue<T>
    requires |s.cells| >= 1
  {
    s.(cells := s.cells[Slot(pos, |s.cells|) := c])
  }

  /** One shared-memory access of thread `t`. */
  function Step<T>(s: Queue<T>, t: nat, a: Action<T>): Queue<T>
    requires Enabled(s, t, a)
  {
    var pc := s.threads[t];
    match a
    case CallEnqueue(item) => SetPc(s, t, EnqLoadPos(item))
    case CallDequeue => SetPc(s, t, DeqLoadPos)
    case LoadPos(seen) =>
      if pc.EnqLoadPos? then SetPc(s, t, EnqLoadSeq(pc.item, seen)) else SetPc(s, t, DeqLoadSeq(seen))
    case LoadSeq =>
      var found := At(s, pc.pos).sequence;
      if pc.EnqLoadSeq? then
        if found == pc.pos then SetPc(s, t, EnqCas(pc.item, pc.pos))
        else if found < pc.pos then SetPc(s, t, Idle)            // reports Full
        else SetPc(s, t, EnqLoadPos(pc.item))
      else
        if found == pc.pos + 1 then SetPc(s, t, DeqCas(pc.pos))
        else if found < pc.pos + 1 then SetPc(s, t, Idle)        // reports Empty
        else SetPc(s, t, DeqLoadPos)
    case Cas(won) =>
      if pc.EnqCas? then
        if won then
          SetPc(s, t, EnqWrite(pc.item, pc.pos)).(enqueuePos := pc.pos + 1, sent := s.sent + [pc.item])
        else SetPc(s, t, EnqLoadSeq(pc.item, pc.pos))
      else
        if won then SetPc(s, t, DeqRead(pc.pos)).(dequeuePos := pc.pos + 1)
        else SetPc(s, t, DeqLoadSeq(pc.pos))
    case AccessData =>
      var c := At(s, pc.pos);
      if pc.EnqWrite? then
        SetPc(SetCell(s, pc.pos, Cell(c.sequence, Some(pc.item))), t, EnqPublish(pc.item, pc.pos))
      else
        SetPc(SetCell(s, pc.pos, Cell(c.sequence, None)), t, DeqRelease(pc.pos, c.data.value))
    case StoreSeq =>
      var c := At(s, pc.pos);
      if pc.EnqPublish? then
        SetPc(SetCell(s, pc.pos, Cell(pc.pos + 1, c.data)), t, Idle)
      else
        SetPc(SetCell(s, pc.pos, Cell(pc.pos + |s.cells|, c.data)), t, Idle)
          .(delivered := s.delivered + [Delivery(t, pc.pos, pc.item)])
  }

  /** The state after a schedule of (thread, action) pairs, if every action was enabled. */
  function Exec<T>(s: Queue<T>, schedule: seq<(nat, Action<T>)>): Option<Queue<T>>
    decreases |schedule|
  {
    if schedule == [] then Some(s)
    else if Enabled(s, schedule[0].0, schedule[0].1) then
      Exec(Step(s, schedule[0].0, schedule[0].1), schedule[1..])
    else None
  }

  // ---------------------------------------------------------------------------
  // The invariant

  predicate Writes<T>(threads: seq<Pc<T>>, t: nat, ticket: nat)
  {
    t < |threads| && (threads[t].EnqWrite? || threads[t].EnqPublish?) && threads[t].pos == ticket
  }

  predicate Reads<T>(threads: seq<Pc<T>>, t: nat, ticket: nat)
  {
    t < |threads| && (threads[t].DeqRead? || threads[t].DeqRelease?) && threads[t].pos == ticket
  }

  ghost predicate BeingWritten<T>(s: Queue<T>, ticket: nat)
  {
    exists t: nat :: Writes(s.threads, t, ticket)
  }

  ghost predicate BeingRead<T>(s: Queue<T>, ticket: nat)
  {
    exists t: nat :: Reads(s.threads, t, ticket)
  }

  predicate DeliveredAt<T>(s: Queue<T>, i: nat, ticket: nat)
  {
    i < |s.delivered| && s.delivered[i].ticket == ticket
  }

  ghost predicate Released<T>(s: Queue<T>, ticket: nat)
  {
    exists i: nat :: DeliveredAt(s, i, ticket)
  }

  ghost predicate Bounds<T>(s: Queue<T>)
  {
    && |s.cells| >= 2
    && s.dequeuePos <= s.enqueuePos <= s.dequeuePos + |s.cells|
    && |s.sent| == s.enqueuePos
  }

  /** The cell that ticket `n` will use next, in terms of the ticket one lap before. */
  ghost predicate CellOk<T>(s: Queue<T>, n: nat)
    requires Bounds(s)
    requires s.enqueuePos <= n < s.enqueuePos + |s.cells|
  {
    var c := At(s, n);
    if n < |s.cells| then c == Cell(n, None)
    else
      var p := n - |s.cells|;
      if p >= s.dequeuePos then
        || (c == Cell(p + 1, Some(s.sent[p])) && !BeingWritten(s, p))
        || (c.sequence == p && BeingWritten(s, p))
      else
        || (c == Cell(n, None) && !BeingRead(s, p))
        || (c.sequence == p + 1 && BeingRead(s, p))
  }

  ghost predicate CellsOk<T>(s: Queue<T>)
    requires Bounds(s)
  {
    forall n: nat :: s.enqueuePos <= n < s.enqueuePos + |s.cells| ==> CellOk(s, n)
  }

  ghost predicate PcOk<T>(s: Queue<T>, pc: Pc<T>)
    requires Bounds(s)
  {
    match pc
    case EnqLoadSeq(_, pos) => pos <= s.enqueuePos
    case EnqCas(_, pos) => pos <= s.enqueuePos && At(s, pos).sequence >= pos
    case EnqWrite(item, pos) =>
      s.dequeuePos <= pos < s.enqueuePos && s.sent[pos] == item && At(s, pos) == Cell(pos, None)
    case EnqPublish(item, pos) =>
      s.dequeuePos <= pos < s.enqueuePos && s.sent[pos] == item && At(s, pos) == Cell(pos, Some(item))
    case DeqLoadSeq(pos) => pos <= s.dequeuePos
    case DeqCas(pos) => pos <= s.dequeuePos && pos < s.enqueuePos && At(s, pos).sequence >= pos + 1
    case DeqRead(pos) =>
      pos < s.dequeuePos && s.enqueuePos <= pos + |s.cells| && At(s, pos) == Cell(pos + 1, Some(s.sent[pos]))
    case DeqRelease(pos, item) =>
      && pos < s.dequeuePos && s.enqueuePos <= pos + |s.cells|
      && item == s.sent[pos] && At(s, pos) == Cell(pos + 1, None)
    case _ => true
  }

  ghost predicate PcsOk<T>(s: Queue<T>)
    requires Bounds(s)
  {
    forall t: nat :: t < |s.threads| ==> PcOk(s, s.threads[t])
  }

  ghost predicate OwnersUnique<T>(s: Queue<T>)
  {
    && (forall t: nat, u: nat, p: nat :: Writes(s.threads, t, p) && Writes(s.threads, u, p) ==> t == u)
    && (forall t: nat, u: nat, p: nat :: Reads(s.threads, t, p) && Reads(s.threads, u, p) ==> t == u)
  }

  /** Claimed tickets are delivered once or still being read, with the value that was sent. */
  ghost predicate HistoryOk<T>(s: Queue<T>)
    requires Bounds(s)
  {
    && (forall i: nat :: i < |s.delivered| ==>
          s.delivered[i].ticket < s.dequeuePos && s.delivered[i].item == s.sent[s.delivered[i].ticket])
    && (forall i: nat, j: nat :: i < j < |s.delivered| ==> s.delivered[i].ticket != s.delivered[j].ticket)
    && (forall p: nat :: p < s.dequeuePos ==> BeingRead(s, p) || Released(s, p))
    && (forall p: nat, t: nat, i: nat :: Reads(s.threads, t, p) && i < |s.delivered| ==> s.delivered[i].ticket != p)
  }

  /** Each consumer's deliveries, and the one it is working on, are in ticket order. */
  ghost predicate OrderOk<T>(s: Queue<T>)
  {
    && (forall i: nat, j: nat :: i < j < |s.delivered| && s.delivered[i].thread == s.delivered[j].thread
          ==> s.delivered[i].ticket < s.delivered[j].ticket)
    && (forall i: nat, t: nat, p: nat :: i < |s.delivered| && s.delivered[i].thread == t && Reads(s.threads, t, p)
          ==> s.delivered[i].ticket < p)
  }

  ghost predicate Inv<T>(s: Queue<T>)
  {
    && Bounds(s)
    && CellsOk(s)
    && PcsOk(s)
    && OwnersUnique(s)
    && HistoryOk(s)
    && OrderOk(s)
  }

  predicate Owner<T>(pc: Pc<T>) {
    pc.EnqWrite? || pc.EnqPublish? || pc.DeqRead? || pc.DeqRelease?
  }

  /** A thread that owns no cell before and after only has to justify its new counter. */
  lemma PlainStep<T>(s: Queue<T>, t: nat, pc: Pc<T>)
    requires Inv(s) && t < |s.threads|
    requires !Owner(s.threads[t]) && !Owner(pc) && PcOk(s, pc)
    ensures Inv(SetPc(s, t, pc))
  {
    var s' := SetPc(s, t, pc);
    assert forall u: nat, p: nat :: Writes(s'.threads, u, p) == Writes(s.threads, u, p);
    assert forall u: nat, p: nat :: Reads(s'.threads, u, p) == Reads(s.threads, u, p);
    assert forall p: nat :: BeingWritten(s', p) == BeingWritten(s, p);
    assert forall p: nat :: BeingRead(s', p) == BeingRead(s, p);
    assert forall p: nat :: Released(s', p) == Released(s, p) by {
      assert forall i: nat, p: nat :: DeliveredAt(s', i, p) == DeliveredAt(s, i, p);
    }
    assert forall n: nat :: s.enqueuePos <= n < s.enqueuePos + |s.cells| ==> CellOk(s, n) == CellOk(s', n);
  }

  /** Winning ticket `pos` is only possible once the previous lap's ticket was released. */
  lemma FreeCellAtTail<T>(s: Queue<T>, pos: nat)
    requires Inv(s) && pos == s.enqueuePos && At(s, pos).sequence >= pos
    ensures At(s, pos) == Cell(pos, None)
    ensures s.enqueuePos < s.dequeuePos + |s.cells|
    ensures pos >= |s.cells| ==> !BeingRead(s, pos - |s.cells|)
  {
    assert CellOk(s, pos);
  }

  /** The new writer of ticket `enqueuePos` is the only change of ownership. */
  lemma WinEnqueueOwners<T>(s: Queue<T>, t: nat)
    requires Inv(s) && Enabled(s, t, Cas(true)) && s.threads[t].EnqCas?
    ensures var s' := Step(s, t, Cas(true));
            && Bounds(s') && OwnersUnique(s') && HistoryOk(s') && OrderOk(s')
            && BeingWritten(s', s.enqueuePos)
            && (forall p: nat :: p != s.enqueuePos ==> BeingWritten(s', p) == BeingWritten(s, p))
            && (forall p: nat :: BeingRead(s', p) == BeingRead(s, p))
  {
    var s' := Step(s, t, Cas(true));
    FreeCellAtTail(s, s.enqueuePos);
    assert forall u: nat, p: nat :: Reads(s'.threads, u, p) == Reads(s.threads, u, p);
    assert forall u: nat, p: nat ::
        Writes(s'.threads, u, p) == (if u == t then p == s.enqueuePos else Writes(s.threads, u, p));
    forall u: nat, p: nat | Writes(s.threads, u, p) ensures p != s.enqueuePos {
      assert PcOk(s, s.threads[u]);
    }
    assert Writes(s'.threads, t, s.enqueuePos);
    assert forall i: nat, p: nat :: DeliveredAt(s', i, p) == DeliveredAt(s, i, p);
    assert forall p: nat :: Released(s', p) == Released(s, p);
  }

  lemma PreviousReleased<T>(s: Queue<T>)
    requires Inv(s) && At(s, s.enqueuePos).sequence >= s.enqueuePos
    ensures s.enqueuePos >= |s.cells| ==> Released(s, s.enqueuePos - |s.cells|)
  {
    FreeCellAtTail(s, s.enqueuePos);
    if s.enqueuePos >= |s.cells| {
      var p := s.enqueuePos - |s.cells|;
      assert BeingRead(s, p) || Released(s, p);
    }
  }

  lemma WinEnqueueCells<T>(s: Queue<T>, t: nat)
    requires Inv(s) && Enabled(s, t, Cas(true)) && s.threads[t].EnqCas?
    ensures var s' := Step(s, t, Cas(true)); Bounds(s') && CellsOk(s')
  {
    hide HistoryOk, OrderOk, OwnersUnique, BeingWritten, BeingRead, PcsOk;
    var pos, cap := s.enqueuePos, |s.cells|;
    var s' := Step(s, t, Cas(true));
    TailCell(s, t);
    WinEnqueueOwners(s, t);
    forall n: nat | s'.enqueuePos <= n < s'.enqueuePos + cap
      ensures CellOk(s', n)
    {
      if n == pos + cap {
        SlotShift(pos, cap);
      } else {
        assert CellOk(s, n);
      }
    }
  }

  lemma TailCell<T>(s: Queue<T>, t: nat)
    requires Inv(s) && Enabled(s, t, Cas(true)) && s.threads[t].EnqCas?
    ensures At(s, s.enqueuePos) == Cell(s.enqueuePos, None) && s.enqueuePos < s.dequeuePos + |s.cells|
    ensures s.enqueuePos >= |s.cells| ==> Released(s, s.enqueuePos - |s.cells|) && !BeingRead(s, s.enqueuePos - |s.cells|)
  {
    assert PcOk(s, s.threads[t]);
    FreeCellAtTail(s, s.enqueuePos);
    PreviousReleased(s);
  }

  lemma WinEnqueue<T>(s: Queue<T>, t: nat)
    requires Inv(s) && Enabled(s, t, Cas(true)) && s.threads[t].EnqCas?
    ensures Inv(Step(s, t, Cas(true)))
    ensures s.enqueuePos >= |s.cells| ==> Released(s, s.enqueuePos - |s.cells|)
  {
    hide HistoryOk, OrderOk, OwnersUnique, BeingWritten, BeingRead, Released, CellsOk;
    var cap := |s.cells|;
    var s' := Step(s, t, Cas(true));
    TailCell(s, t);
    WinEnqueueOwners(s, t);
    WinEnqueueCells(s, t);
    forall u: nat | u < |s'.threads|
      ensures PcOk(s', s'.threads[u])
    {
      if u != t {
        assert PcOk(s, s.threads[u]);
        if s.threads[u].DeqRead? || s.threads[u].DeqRelease? {
          OwnsTicket(s, u);
          SlotShift(s.threads[u].pos, cap);
        }
      }
    }
  }

  /** The new reader of ticket `dequeuePos` is the only change of ownership. */
  lemma WinDequeueOwners<T>(s: Queue<T>, t: nat)
    requires Inv(s) && Enabled(s, t, Cas(true)) && s.threads[t].DeqCas?
    ensures var s' := Step(s, t, Cas(true));
            && Bounds(s') && OwnersUnique(s') && HistoryOk(s') && OrderOk(s')
            && BeingRead(s', s.dequeuePos)
            && (forall p: nat :: p != s.dequeuePos ==> BeingRead(s', p) == BeingRead(s, p))
            && (forall p: nat :: BeingWritten(s', p) == BeingWritten(s, p))
  {
    var pos := s.dequeuePos;
    var s' := Step(s, t, Cas(true));
    assert PcOk(s, s.threads[t]);
    assert forall u: nat, p: nat :: Writes(s'.threads, u, p) == Writes(s.threads, u, p);
    assert forall u: nat, p: nat :: Reads(s'.threads, u, p) == (if u == t then p == pos else Reads(s.threads, u, p));
    forall u: nat, p: nat | Reads(s.threads, u, p) ensures p < pos {
      assert PcOk(s, s.threads[u]);
    }
    assert Reads(s'.threads, t, pos);
    assert forall i: nat, p: nat :: DeliveredAt(s', i, p) == DeliveredAt(s, i, p);
    forall p: nat | p < s'.dequeuePos
      ensures BeingRead(s', p) || Released(s', p)
    {
      assert p < pos ==> BeingRead(s, p) || Released(s, p);
    }
  }

  /** A ticket observed as published, and still next, is readable and has no writer. */
  lemma PublishedCellAtHead<T>(s: Queue<T>, pos: nat)
    requires Inv(s) && pos == s.dequeuePos < s.enqueuePos && At(s, pos).sequence >= pos + 1
    ensures At(s, pos) == Cell(pos + 1, Some(s.sent[pos])) && !BeingWritten(s, pos)
  {
    assert CellOk(s, pos + |s.cells|);
  }

  lemma WinDequeue<T>(s: Queue<T>, t: nat)
    requires Inv(s) && Enabled(s, t, Cas(true)) && s.threads[t].DeqCas?
    ensures Inv(Step(s, t, Cas(true)))
  {
    hide HistoryOk, OrderOk, OwnersUnique, BeingWritten, BeingRead;
    var pos, cap := s.dequeuePos, |s.cells|;
    var s' := Step(s, t, Cas(true));
    assert PcOk(s, s.threads[t]);
    PublishedCellAtHead(s, pos);
    WinDequeueOwners(s, t);
    forall n: nat | s'.enqueuePos <= n < s'.enqueuePos + cap
      ensures CellOk(s', n)
    {
      assert CellOk(s, n);
    }
    forall u: nat | u < |s'.threads|
      ensures PcOk(s', s'.threads[u])
    {
      if u != t {
        assert PcOk(s, s.threads[u]);
        assert s.threads[u].EnqWrite? || s.threads[u].EnqPublish? ==> Writes(s.threads, u, s.threads[u].pos);
      }
    }
  }

  /** Rewriting the data of the owned cell, without touching its sequence number. */
  lemma OwnerAccess<T>(s: Queue<T>, t: nat)
    requires Inv(s) && Enabled(s, t, AccessData)
    ensures Inv(Step(s, t, AccessData))
  {
    hide HistoryOk, OrderOk, OwnersUnique, CellsOk;
    var s' := Step(s, t, AccessData);
    OwnerAccessOwners(s, t);
    OwnerAccessCells(s, t);
    forall u: nat | u < |s'.threads|
      ensures PcOk(s', s'.threads[u])
    {
      if u == t { assert PcOk(s, s.threads[t]); } else { OthersKeepTheirCells(s, t, u); }
    }
  }

  lemma OwnerAccessCells<T>(s: Queue<T>, t: nat)
    requires Inv(s) && Enabled(s, t, AccessData)
    ensures var s' := Step(s, t, AccessData); Bounds(s') && CellsOk(s')
  {
    hide HistoryOk, OrderOk, OwnersUnique, BeingWritten, BeingRead;
    var s' := Step(s, t, AccessData);
    var pos := s.threads[t].pos;
    OwnerAccessOwners(s, t);
    OwnsTicket(s, t);
    forall n: nat | s'.enqueuePos <= n < s'.enqueuePos + |s.cells|
      ensures CellOk(s', n)
    {
      assert CellOk(s, n);
      OwnCellOnly(s, pos, n);
    }
  }

  lemma OwnsTicket<T>(s: Queue<T>, t: nat)
    requires t < |s.threads| && Owner(s.threads[t])
    ensures var pc := s.threads[t];
            if pc.EnqWrite? || pc.EnqPublish? then BeingWritten(s, pc.pos) else BeingRead(s, pc.pos)
  {
    assert Writes(s.threads, t, s.threads[t].pos) || Reads(s.threads, t, s.threads[t].pos);
  }

  lemma OwnerAccessOwners<T>(s: Queue<T>, t: nat)
    requires Inv(s) && Enabled(s, t, AccessData)
    ensures var s' := Step(s, t, AccessData);
            && Bounds(s') && OwnersUnique(s') && HistoryOk(s') && OrderOk(s')
            && (forall p: nat :: BeingWritten(s', p) == BeingWritten(s, p))
            && (forall p: nat :: BeingRead(s', p) == BeingRead(s, p))
  {
    var s' := Step(s, t, AccessData);
    assert forall u: nat, p: nat :: Writes(s'.threads, u, p) == Writes(s.threads, u, p);
    assert forall u: nat, p: nat :: Reads(s'.threads, u, p) == Reads(s.threads, u, p);
    assert forall p: nat :: BeingRead(s', p) == BeingRead(s, p);
    assert forall i: nat, p: nat :: DeliveredAt(s', i, p) == DeliveredAt(s, i, p);
    assert forall p: nat :: Released(s', p) == Released(s, p);
  }

  lemma OwnCellOnly<T>(s: Queue<T>, pos: nat, n: nat)
    requires Bounds(s) && pos < s.enqueuePos <= pos + |s.cells|
    requires s.enqueuePos <= n < s.enqueuePos + |s.cells|
    ensures n != pos + |s.cells| ==> Slot(n, |s.cells|) != Slot(pos, |s.cells|)
    ensures Slot(pos + |s.cells|, |s.cells|) == Slot(pos, |s.cells|)
  {
    SlotShift(pos, |s.cells|);
    WindowInjective(s.enqueuePos, |s.cells|);
  }

  /** Two different owners never share a cell. */
  lemma OwnersApart<T>(s: Queue<T>, t: nat, u: nat)
    requires Inv(s) && t < |s.threads| && u < |s.threads| && t != u
    requires Owner(s.threads[t]) && Owner(s.threads[u])
    ensures Slot(s.threads[t].pos, |s.cells|) != Slot(s.threads[u].pos, |s.cells|)
  {
    hide HistoryOk, OrderOk, CellsOk;
    var p, q := s.threads[t].pos, s.threads[u].pos;
    assert Writes(s.threads, t, p) || Reads(s.threads, t, p);
    assert Writes(s.threads, u, q) || Reads(s.threads, u, q);
    OwnCellOnly(s, p, q + |s.cells|);
  }

  lemma OthersKeepTheirCells<T>(s: Queue<T>, t: nat, u: nat)
    requires Inv(s) && Enabled(s, t, AccessData) && u < |s.threads| && u != t
    ensures PcOk(Step(s, t, AccessData), s.threads[u])
  {
    hide HistoryOk, OrderOk, CellsOk;
    if Owner(s.threads[u]) { OwnersApart(s, t, u); }
  }

  lemma OthersKeepTheirCounters<T>(s: Queue<T>, t: nat, u: nat)
    requires Inv(s) && Enabled(s, t, StoreSeq) && u < |s.threads| && u != t
    ensures PcOk(Step(s, t, StoreSeq), s.threads[u])
  {
    hide HistoryOk, OrderOk, CellsOk, OwnersUnique;
    if Owner(s.threads[u]) { OwnersApart(s, t, u); }
  }

  lemma PublishOwners<T>(s: Queue<T>, t: nat)
    requires Inv(s) && Enabled(s, t, StoreSeq) && s.threads[t].EnqPublish?
    ensures var s' := Step(s, t, StoreSeq);
            && Bounds(s') && OwnersUnique(s') && HistoryOk(s') && OrderOk(s')
            && !BeingWritten(s', s.threads[t].pos)
            && (forall p: nat :: p != s.threads[t].pos ==> BeingWritten(s', p) == BeingWritten(s, p))
            && (forall p: nat :: BeingRead(s', p) == BeingRead(s, p))
  {
    var s' := Step(s, t, StoreSeq);
    assert Writes(s.threads, t, s.threads[t].pos);
    assert forall u: nat, p: nat :: Writes(s'.threads, u, p) == (u != t && Writes(s.threads, u, p));
    assert forall u: nat, p: nat :: Reads(s'.threads, u, p) == Reads(s.threads, u, p);
    assert forall p: nat :: BeingRead(s', p) == BeingRead(s, p);
    assert forall i: nat, p: nat :: DeliveredAt(s', i, p) == DeliveredAt(s, i, p);
    assert forall p: nat :: Released(s', p) == Released(s, p);
  }

  lemma Publish<T>(s: Queue<T>, t: nat)
    requires Inv(s) && Enabled(s, t, StoreSeq) && s.threads[t].EnqPublish?
    ensures Inv(Step(s, t, StoreSeq))
  {
    hide HistoryOk, OrderOk, OwnersUnique, BeingWritten, BeingRead;
    var s' := Step(s, t, StoreSeq);
    var pos := s.threads[t].pos;
    PublishOwners(s, t);
    assert PcOk(s, s.threads[t]);
    forall n: nat | s'.enqueuePos <= n < s'.enqueuePos + |s.cells|
      ensures CellOk(s', n)
    {
      assert CellOk(s, n);
      OwnCellOnly(s, pos, n);
    }
    forall u: nat | u < |s'.threads|
      ensures PcOk(s', s'.threads[u])
    {
      if u != t { OthersKeepTheirCounters(s, t, u); }
    }
  }

  lemma Release<T>(s: Queue<T>, t: nat)
    requires Inv(s) && Enabled(s, t, StoreSeq) && s.threads[t].DeqRelease?
    ensures Inv(Step(s, t, StoreSeq))
    ensures var p := s.threads[t].pos;
            p < |s.sent| && Step(s, t, StoreSeq).delivered == s.delivered + [Delivery(t, p, s.sent[p])]
  {
    hide HistoryOk, OrderOk, OwnersUnique;
    var s' := Step(s, t, StoreSeq);
    var pos := s.threads[t].pos;
    ReleaseHistory(s, t);
    forall n: nat | s'.enqueuePos <= n < s'.enqueuePos + |s.cells|
      ensures CellOk(s', n)
    {
      assert CellOk(s, n);
      assert PcOk(s, s.threads[t]);
      OwnCellOnly(s, pos, n);
    }
    forall u: nat | u < |s'.threads|
      ensures PcOk(s', s'.threads[u])
    {
      if u != t { OthersKeepTheirCounters(s, t, u); }
    }
  }

  lemma ReleaseHistory<T>(s: Queue<T>, t: nat)
    requires Inv(s) && Enabled(s, t, StoreSeq) && s.threads[t].DeqRelease?
    ensures var s' := Step(s, t, StoreSeq);
            && Bounds(s') && OwnersUnique(s') && HistoryOk(s') && OrderOk(s')
            && !BeingRead(s', s.threads[t].pos)
            && (forall p: nat :: p != s.threads[t].pos ==> BeingRead(s', p) == BeingRead(s, p))
            && (forall p: nat :: BeingWritten(s', p) == BeingWritten(s, p))
  {
    var s' := Step(s, t, StoreSeq);
    var pos := s.threads[t].pos;
    assert PcOk(s, s.threads[t]);
    assert Reads(s.threads, t, pos);
    assert forall u: nat, p: nat :: Reads(s'.threads, u, p) == (u != t && Reads(s.threads, u, p));
    assert forall u: nat, p: nat :: Writes(s'.threads, u, p) == Writes(s.threads, u, p);
    assert DeliveredAt(s', |s.delivered|, pos);
    assert forall i: nat, p: nat :: DeliveredAt(s, i, p) ==> DeliveredAt(s', i, p);
    forall p: nat | p < s'.dequeuePos
      ensures BeingRead(s', p) || Released(s', p)
    {
      assert BeingRead(s, p) || Released(s, p);
      if p != pos && BeingRead(s, p) {
        var u: nat :| Reads(s.threads, u, p);
        assert Reads(s'.threads, u, p);
      }
    }
  }
}
