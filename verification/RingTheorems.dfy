/** What holds of the ring in every interleaving, proved about `LockFreeQueue`. */
module RingTheorems {
  import opened Options
  import opened LockFreeQueue

  lemma StepInv<T>(s: Queue<T>, t: nat, a: Action<T>)
    requires Inv(s) && Enabled(s, t, a)
    ensures Inv(Step(s, t, a))
  {
    var pc := s.threads[t];
    assert PcOk(s, pc);
    match a
    case CallEnqueue(item) => PlainStep(s, t, EnqLoadPos(item));
    case CallDequeue => PlainStep(s, t, DeqLoadPos);
    case LoadPos(seen) =>
      PlainStep(s, t, Step(s, t, a).threads[t]);
    case LoadSeq =>
      if pc.DeqLoadSeq? && pc.pos == s.enqueuePos {
        assert CellOk(s, pc.pos);
      }
      PlainStep(s, t, Step(s, t, a).threads[t]);
    case Cas(won) =>
      if won {
        if pc.EnqCas? { WinEnqueue(s, t); } else { WinDequeue(s, t); }
      } else {
        PlainStep(s, t, Step(s, t, a).threads[t]);
      }
    case AccessData => OwnerAccess(s, t);
    case StoreSeq =>
      if pc.EnqPublish? { Publish(s, t); } else { Release(s, t); }
  }

  lemma {:induction false} ExecInv<T>(s: Queue<T>, schedule: seq<(nat, Action<T>)>)
    requires Inv(s) && Exec(s, schedule).Some?
    ensures Inv(Exec(s, schedule).value)
    decreases |schedule|
  {
    if schedule != [] {
      StepInv(s, schedule[0].0, schedule[0].1);
      ExecInv(Step(s, schedule[0].0, schedule[0].1), schedule[1..]);
    }
  }

  /** What a user of the queue relies on in every interleaving. */
  ghost predicate Safe<T>(s: Queue<T>)
  {
    && |s.cells| >= 1
    && s.dequeuePos <= s.enqueuePos <= s.dequeuePos + |s.cells|
    && |s.sent| == s.enqueuePos
    // at most one thread owns a cell between its compare-and-swap and its sequence store
    && (forall t: nat, u: nat :: t < |s.threads| && u < |s.threads| && t != u && Owner(s.threads[t]) && Owner(s.threads[u])
          ==> Slot(s.threads[t].pos, |s.cells|) != Slot(s.threads[u].pos, |s.cells|))
    // no unread value is overwritten
    && (forall t: nat :: t < |s.threads| && s.threads[t].EnqWrite? ==> At(s, s.threads[t].pos).data.None?)
    // no unwritten cell is read, and what is read is what was sent under the ticket
    && (forall t: nat :: t < |s.threads| && s.threads[t].DeqRead? ==>
          s.threads[t].pos < |s.sent| && At(s, s.threads[t].pos).data == Some(s.sent[s.threads[t].pos]))
  }

  lemma InvSafe<T>(s: Queue<T>)
    requires Inv(s)
    ensures Safe(s)
  {
    forall t: nat, u: nat | t < |s.threads| && u < |s.threads| && t != u && Owner(s.threads[t]) && Owner(s.threads[u])
      ensures Slot(s.threads[t].pos, |s.cells|) != Slot(s.threads[u].pos, |s.cells|)
    {
      OwnersApart(s, t, u);
    }
  }

  ghost predicate Reachable<T(!new)>(capacity: nat, threads: nat, s: Queue<T>)
  {
    exists schedule: seq<(nat, Action<T>)> :: Exec(Init(capacity, threads), schedule) == Some(s)
  }

  lemma ReachableInv<T(!new)>(capacity: nat, threads: nat, s: Queue<T>)
    requires capacity >= 2 && Reachable(capacity, threads, s)
    ensures Inv(s)
  {
    var schedule: seq<(nat, Action<T>)> :| Exec(Init(capacity, threads), schedule) == Some(s);
    ExecInv(Init(capacity, threads), schedule);
  }

  lemma {:induction false} ExecCells<T>(s: Queue<T>, schedule: seq<(nat, Action<T>)>)
    requires Exec(s, schedule).Some?
    ensures |Exec(s, schedule).value.cells| == |s.cells|
    decreases |schedule|
  {
    if schedule != [] {
      ExecCells(Step(s, schedule[0].0, schedule[0].1), schedule[1..]);
    }
  }

  lemma ReachableCells<T(!new)>(capacity: nat, threads: nat, s: Queue<T>)
    requires Reachable(capacity, threads, s)
    ensures |s.cells| == capacity
  {
    var schedule: seq<(nat, Action<T>)> :| Exec(Init(capacity, threads), schedule) == Some(s);
    ExecCells(Init(capacity, threads), schedule);
  }

  lemma {:induction false} ExecSnoc<T>(s: Queue<T>, schedule: seq<(nat, Action<T>)>, t: nat, a: Action<T>)
    requires Exec(s, schedule).Some? && Enabled(Exec(s, schedule).value, t, a)
    ensures Exec(s, schedule + [(t, a)]) == Some(Step(Exec(s, schedule).value, t, a))
    decreases |schedule|
  {
    var longer := schedule + [(t, a)];
    if schedule == [] {
    } else {
      assert longer[1..] == schedule[1..] + [(t, a)];
      ExecSnoc(Step(s, schedule[0].0, schedule[0].1), schedule[1..], t, a);
    }
  }

  lemma ReachableStep<T(!new)>(capacity: nat, threads: nat, s: Queue<T>, t: nat, a: Action<T>)
    requires Reachable(capacity, threads, s) && Enabled(s, t, a)
    ensures Reachable(capacity, threads, Step(s, t, a))
  {
    var schedule: seq<(nat, Action<T>)> :| Exec(Init(capacity, threads), schedule) == Some(s);
    ExecSnoc(Init(capacity, threads), schedule, t, a);
  }

  lemma Advance<T(!new)>(s: Queue<T>, a: Action<T>, s': Queue<T>)
    requires Reachable(1, 1, s) && Enabled(s, 0, a) && Step(s, 0, a) == s'
    ensures Reachable(1, 1, s')
  {
    ReachableStep(1, 1, s, 0, a);
  }

  /** The state of a one-cell ring with one thread that has delivered nothing. */
  function OneCell<T>(c: Cell<T>, tail: nat, pc: Pc<T>, sent: seq<T>): Queue<T>
  {
    Queue([c], tail, 0, [pc], sent, [])
  }

  lemma OneCellEnqueue<T(!new)>(x: T)
    ensures Reachable(1, 1, OneCell(Cell(1, Some(x)), 1, Idle, [x]))
  {
    assert Init<T>(1, 1) == OneCell(Cell(0, None), 0, Idle, []);
    assert Exec(Init<T>(1, 1), []) == Some(OneCell(Cell(0, None), 0, Idle, []));
    var empty: Cell<T> := Cell(0, None);
    Advance(OneCell(empty, 0, Idle, []), CallEnqueue(x), OneCell(empty, 0, EnqLoadPos(x), []));
    Advance(OneCell(empty, 0, EnqLoadPos(x), []), LoadPos(0), OneCell(empty, 0, EnqLoadSeq(x, 0), []));
    Advance(OneCell(empty, 0, EnqLoadSeq(x, 0), []), LoadSeq, OneCell(empty, 0, EnqCas(x, 0), []));
    Advance(OneCell(empty, 0, EnqCas(x, 0), []), Cas(true), OneCell(empty, 1, EnqWrite(x, 0), [x]));
    Advance(OneCell(empty, 1, EnqWrite(x, 0), [x]), AccessData, OneCell(Cell(0, Some(x)), 1, EnqPublish(x, 0), [x]));
    Advance(OneCell(Cell(0, Some(x)), 1, EnqPublish(x, 0), [x]), StoreSeq, OneCell(Cell(1, Some(x)), 1, Idle, [x]));
  }

  /** One thread, one cell: the second enqueue wins a ticket while the first item is unread. */
  lemma CapacityOneOverwrites<T(!new)>(x: T)
    ensures Reachable(1, 1, OneCell(Cell(1, Some(x)), 2, EnqWrite(x, 1), [x, x]))
  {
    OneCellEnqueue(x);
    var full := Cell(1, Some(x));
    Advance(OneCell(full, 1, Idle, [x]), CallEnqueue(x), OneCell(full, 1, EnqLoadPos(x), [x]));
    Advance(OneCell(full, 1, EnqLoadPos(x), [x]), LoadPos(1), OneCell(full, 1, EnqLoadSeq(x, 1), [x]));
    Advance(OneCell(full, 1, EnqLoadSeq(x, 1), [x]), LoadSeq, OneCell(full, 1, EnqCas(x, 1), [x]));
    Advance(OneCell(full, 1, EnqCas(x, 1), [x]), Cas(true), OneCell(full, 2, EnqWrite(x, 1), [x, x]));
  }

  /** The ring is safe in every interleaving exactly when it has at least two cells. */
  lemma SafeIffTwoCells<T(!new)>(capacity: nat, x: T)
    requires capacity >= 1
    ensures (forall threads: nat, s: Queue<T> :: Reachable(capacity, threads, s) ==> Safe(s)) <==> capacity >= 2
  {
    if capacity >= 2 {
      forall threads: nat, s: Queue<T> | Reachable(capacity, threads, s)
        ensures Safe(s)
      {
        ReachableInv(capacity, threads, s);
        InvSafe(s);
      }
    } else {
      CapacityOneOverwrites(x);
    }
  }

  /** Ticket `p` is waiting in the ring, readable. */
  ghost predicate Waiting<T>(s: Queue<T>, p: nat)
    requires |s.cells| >= 1
  {
    s.dequeuePos <= p < |s.sent| && At(s, p) == Cell(p + 1, Some(s.sent[p]))
  }

  /** Conservation: a won ticket is in exactly one of four places, and only ever carries its own item. */
  lemma TicketConservation<T(!new)>(capacity: nat, threads: nat, s: Queue<T>, p: nat)
    requires capacity >= 2 && Reachable(capacity, threads, s) && p < s.enqueuePos
    ensures |s.cells| >= 1 && |s.sent| == s.enqueuePos
    ensures (if BeingWritten(s, p) then 1 else 0) + (if Waiting(s, p) then 1 else 0)
            + (if BeingRead(s, p) then 1 else 0) + (if Released(s, p) then 1 else 0) == 1
    ensures forall i: nat, j: nat :: DeliveredAt(s, i, p) && DeliveredAt(s, j, p) ==> i == j
    ensures forall i: nat :: DeliveredAt(s, i, p) ==> s.delivered[i].item == s.sent[p]
  {
    ReachableInv(capacity, threads, s);
    forall t: nat | Writes(s.threads, t, p) ensures p >= s.dequeuePos && !Waiting(s, p) {
      assert PcOk(s, s.threads[t]);
    }
    forall t: nat | Reads(s.threads, t, p) ensures p < s.dequeuePos && !Released(s, p) {}
    if p >= s.dequeuePos {
      assert CellOk(s, p + |s.cells|);
    }
  }

  /** `enqueue` reports Full exactly when its ticket is next and the previous lap's is unreleased. */
  lemma FullIffUnreleased<T(!new)>(capacity: nat, threads: nat, s: Queue<T>, t: nat)
    requires capacity >= 2 && Reachable(capacity, threads, s) && t < |s.threads| && s.threads[t].EnqLoadSeq?
    ensures Enabled(s, t, LoadSeq)
    ensures Step(s, t, LoadSeq).threads[t].Idle? <==>
            (s.threads[t].pos == s.enqueuePos && s.enqueuePos >= |s.cells|
             && !Released(s, s.enqueuePos - |s.cells|))
  {
    ReachableInv(capacity, threads, s);
    var pos := s.threads[t].pos;
    assert PcOk(s, s.threads[t]);
    var n := NextUse(s, pos);
    assert CellOk(s, n);
    if n >= |s.cells| {
      var p := n - |s.cells|;
      forall u: nat | Reads(s.threads, u, p) ensures !Released(s, p) {}
      assert p < s.dequeuePos ==> BeingRead(s, p) || Released(s, p);
      assert p >= s.dequeuePos ==> !Released(s, p);
    }
  }

  /** `dequeue` reports Empty exactly when its ticket is next and nobody has published it yet. */
  lemma EmptyIffUnpublished<T(!new)>(capacity: nat, threads: nat, s: Queue<T>, t: nat)
    requires capacity >= 2 && Reachable(capacity, threads, s) && t < |s.threads| && s.threads[t].DeqLoadSeq?
    ensures Enabled(s, t, LoadSeq)
    ensures Step(s, t, LoadSeq).threads[t].Idle? <==>
            (s.threads[t].pos == s.dequeuePos
             && (s.dequeuePos == s.enqueuePos || BeingWritten(s, s.dequeuePos)))
  {
    ReachableInv(capacity, threads, s);
    var pos := s.threads[t].pos;
    var n := NextUse(s, pos);
    assert CellOk(s, n);
    forall u: nat, q: nat | Writes(s.threads, u, q) ensures q >= s.dequeuePos && At(s, q).sequence == q {}
  }

  /** The position in the coming lap that uses the same cell as an old position. */
  lemma NextUse<T>(s: Queue<T>, pos: nat) returns (n: nat)
    requires Bounds(s) && pos <= s.enqueuePos
    ensures s.enqueuePos <= n < s.enqueuePos + |s.cells| && n >= pos
    ensures Slot(n, |s.cells|) == Slot(pos, |s.cells|)
    ensures pos < s.enqueuePos ==> n >= pos + |s.cells|
    ensures pos == s.enqueuePos ==> n == pos
    ensures s.enqueuePos < pos + |s.cells| && pos < s.enqueuePos ==> n == pos + |s.cells|
  {
    n := pos;
    while n < s.enqueuePos
      invariant pos <= n < s.enqueuePos + |s.cells|
      invariant Slot(n, |s.cells|) == Slot(pos, |s.cells|)
      invariant n == pos || n >= pos + |s.cells|
      invariant s.enqueuePos < pos + |s.cells| ==> n == pos || n == pos + |s.cells|
    {
      n := n + |s.cells|;
    }
  }

  // ---------------------------------------------------------------------------
  // Delivery order and draining

  lemma {:induction false} HistoryGrows<T>(s: Queue<T>, schedule: seq<(nat, Action<T>)>)
    requires Exec(s, schedule).Some?
    ensures s.sent <= Exec(s, schedule).value.sent && s.delivered <= Exec(s, schedule).value.delivered
    decreases |schedule|
  {
    if schedule != [] {
      HistoryGrows(Step(s, schedule[0].0, schedule[0].1), schedule[1..]);
    }
  }

  function Tickets<T>(ds: seq<Delivery<T>>): seq<nat>
  {
    seq(|ds|, i requires 0 <= i < |ds| => ds[i].ticket)
  }

  function Items<T>(ds: seq<Delivery<T>>): seq<T>
  {
    seq(|ds|, i requires 0 <= i < |ds| => ds[i].item)
  }

  /** Increasing tickets that stay in `lo..hi` and miss none of it count up one by one. */
  lemma {:induction false} IncreasingCover(ts: seq<nat>, lo: nat, hi: nat)
    requires lo <= hi
    requires forall i, j :: 0 <= i < j < |ts| ==> ts[i] < ts[j]
    requires forall i :: 0 <= i < |ts| ==> lo <= ts[i] < hi
    requires forall p: nat :: lo <= p < hi ==> p in ts
    ensures |ts| == hi - lo && forall i :: 0 <= i < |ts| ==> ts[i] == lo + i
    decreases hi - lo
  {
    if ts == [] {
      assert lo < hi ==> lo in ts;
    } else {
      assert lo <= ts[0] < hi;
      assert lo in ts;
      assert ts[0] == lo;
      forall p: nat | lo + 1 <= p < hi ensures p in ts[1..] {
        assert p in ts;
      }
      IncreasingCover(ts[1..], lo + 1, hi);
      assert forall i :: 0 < i < |ts| ==> ts[i] == ts[1..][i - 1];
    }
  }

  /** Deliveries in ticket order that cover `lo..hi` carry exactly the items sent in between. */
  lemma InOrderItems<T>(ds: seq<Delivery<T>>, sent: seq<T>, lo: nat, hi: nat)
    requires lo <= hi <= |sent|
    requires forall i, j :: 0 <= i < j < |ds| ==> ds[i].ticket < ds[j].ticket
    requires forall i :: 0 <= i < |ds| ==> lo <= ds[i].ticket < hi && ds[i].item == sent[ds[i].ticket]
    requires forall p: nat :: lo <= p < hi ==> p in Tickets(ds)
    ensures Items(ds) == sent[lo..hi]
  {
    var ts := Tickets(ds);
    IncreasingCover(ts, lo, hi);
    forall i | 0 <= i < |ds| ensures ds[i].item == sent[lo..hi][i] {
      assert ts[i] == ds[i].ticket;
    }
  }

  /** A lone consumer receives the items in the order their tickets were won, with no gap. */
  lemma SingleConsumerFifo<T(!new)>(capacity: nat, threads: nat, s: Queue<T>, c: nat)
    requires capacity >= 2 && Reachable(capacity, threads, s)
    requires forall i :: 0 <= i < |s.delivered| ==> s.delivered[i].thread == c
    requires forall t: nat, p: nat :: Reads(s.threads, t, p) ==> t == c
    ensures |s.delivered| <= |s.sent|
    ensures Items(s.delivered) == s.sent[..|s.delivered|]
  {
    ReachableInv(capacity, threads, s);
    var hi := LoneConsumerProgress(s, c);
    InOrderItems(s.delivered, s.sent, 0, hi);
  }

  /** A lone consumer has been handed every ticket below its current one. */
  lemma LoneConsumerProgress<T>(s: Queue<T>, c: nat) returns (hi: nat)
    requires Inv(s)
    requires forall i :: 0 <= i < |s.delivered| ==> s.delivered[i].thread == c
    requires forall t: nat, p: nat :: Reads(s.threads, t, p) ==> t == c
    ensures hi <= |s.sent| <= hi + |s.cells|
    ensures c < |s.threads| && s.threads[c].DeqRelease? ==> s.threads[c].pos == hi
    ensures forall i :: 0 <= i < |s.delivered| ==> s.delivered[i].ticket < hi
    ensures forall p: nat :: p < hi ==> p in Tickets(s.delivered)
  {
    hi := s.dequeuePos;
    if c < |s.threads| && (s.threads[c].DeqRead? || s.threads[c].DeqRelease?) {
      hi := s.threads[c].pos;
      assert Reads(s.threads, c, hi);
    }
    forall p: nat | p < hi ensures p in Tickets(s.delivered) {
      assert BeingRead(s, p) || Released(s, p);
      var i: nat :| DeliveredAt(s, i, p);
      assert Tickets(s.delivered)[i] == p;
    }
  }

  ghost predicate NoOwners<T>(s: Queue<T>)
  {
    forall t: nat :: t < |s.threads| ==> !Owner(s.threads[t])
  }

  /** A schedule that empties the ring through one consumer hands over exactly the undelivered items. */
  lemma EmptiedInOrder<T(!new)>(
    capacity: nat, threads: nat, s: Queue<T>, schedule: seq<(nat, Action<T>)>, s': Queue<T>, c: nat)
    requires capacity >= 2 && Reachable(capacity, threads, s) && Exec(s, schedule) == Some(s')
    requires NoOwners(s) && NoOwners(s')
    requires s'.enqueuePos == s.enqueuePos && s'.dequeuePos == s'.enqueuePos
    requires forall i :: |s.delivered| <= i < |s'.delivered| ==> s'.delivered[i].thread == c
    ensures s.delivered <= s'.delivered && s.dequeuePos <= |s.sent|
    ensures Items(s'.delivered[|s.delivered|..]) == s.sent[s.dequeuePos..]
  {
    ReachableInv(capacity, threads, s);
    ExecInv(s, schedule);
    HistoryGrows(s, schedule);
    assert s'.sent == s.sent;
    DrainTickets(s, s');
    InOrderItems(s'.delivered[|s.delivered|..], s.sent, s.dequeuePos, s.enqueuePos);
  }

  /** The tickets delivered between two quiet states are those between the two heads. */
  lemma DrainTickets<T>(s: Queue<T>, s': Queue<T>)
    requires Inv(s) && Inv(s') && NoOwners(s) && NoOwners(s') && s.delivered <= s'.delivered
    ensures forall i :: |s.delivered| <= i < |s'.delivered| ==> s.dequeuePos <= s'.delivered[i].ticket < s'.dequeuePos
    ensures forall p: nat :: s.dequeuePos <= p < s'.dequeuePos ==> p in Tickets(s'.delivered[|s.delivered|..])
  {
    var ts := Tickets(s'.delivered[|s.delivered|..]);
    forall p: nat | s.dequeuePos <= p < s'.dequeuePos ensures p in ts {
      assert BeingRead(s', p) || Released(s', p);
      var i: nat :| DeliveredAt(s', i, p);
      assert ts[i - |s.delivered|] == p;
    }
    forall i | |s.delivered| <= i < |s'.delivered| ensures s.dequeuePos <= s'.delivered[i].ticket {
      var p := s'.delivered[i].ticket;
      forall k: nat ensures !DeliveredAt(s, k, p) {
        if k < |s.delivered| { assert s'.delivered[k] == s.delivered[k]; }
      }
      assert p < s.dequeuePos ==> BeingRead(s, p) || Released(s, p);
    }
  }

  /** With no enqueue in progress, a consumer that is told Empty has seen every item claimed. */
  lemma EmptyMeansDrained<T(!new)>(capacity: nat, threads: nat, s: Queue<T>, t: nat)
    requires capacity >= 2 && Reachable(capacity, threads, s) && t < |s.threads| && s.threads[t].DeqLoadSeq?
    requires forall u: nat, p: nat :: !Writes(s.threads, u, p)
    requires Enabled(s, t, LoadSeq) && Step(s, t, LoadSeq).threads[t].Idle?
    ensures s.dequeuePos == s.enqueuePos
    ensures forall p: nat :: p < s.enqueuePos ==> BeingRead(s, p) || Released(s, p)
  {
    ReachableInv(capacity, threads, s);
    EmptyIffUnpublished(capacity, threads, s, t);
  }

  /** Thread `c` alone acts, and only to dequeue. */
  predicate OnlyDequeues<T>(schedule: seq<(nat, Action<T>)>, c: nat)
  {
    forall i :: 0 <= i < |schedule| ==> schedule[i].0 == c && !schedule[i].1.CallEnqueue?
  }

  /** Every thread but `c` is idle, and `c` is idle or dequeuing. */
  predicate Draining<T>(s: Queue<T>, c: nat)
  {
    && c < |s.threads|
    && (forall t: nat :: t < |s.threads| && t != c ==> s.threads[t].Idle?)
    && var pc := s.threads[c];
       pc.Idle? || pc.DeqLoadPos? || pc.DeqLoadSeq? || pc.DeqCas? || pc.DeqRead? || pc.DeqRelease?
  }

  lemma DrainStep<T>(s: Queue<T>, c: nat, a: Action<T>)
    requires Draining(s, c) && Enabled(s, c, a) && !a.CallEnqueue?
    ensures var s' := Step(s, c, a);
            && Draining(s', c) && s'.enqueuePos == s.enqueuePos && s.delivered <= s'.delivered
            && forall i :: |s.delivered| <= i < |s'.delivered| ==> s'.delivered[i].thread == c
  {
  }

  lemma {:induction false} DrainRun<T>(s: Queue<T>, schedule: seq<(nat, Action<T>)>, c: nat)
    requires Draining(s, c) && OnlyDequeues(schedule, c) && Exec(s, schedule).Some?
    ensures var s' := Exec(s, schedule).value;
            && Draining(s', c) && s'.enqueuePos == s.enqueuePos && s.delivered <= s'.delivered
            && forall i :: |s.delivered| <= i < |s'.delivered| ==> s'.delivered[i].thread == c
    decreases |schedule|
  {
    hide Draining, Step, Enabled;
    if schedule != [] {
      var s1 := Step(s, c, schedule[0].1);
      DrainStep(s, c, schedule[0].1);
      DrainRun(s1, schedule[1..], c);
      var s' := Exec(s, schedule).value;
      forall i | |s.delivered| <= i < |s'.delivered| ensures s'.delivered[i].thread == c {
        if i < |s1.delivered| { assert s'.delivered[i] == s1.delivered[i]; }
      }
    }
  }

  /**
   The drain of `Drop`: all threads are idle, one of them dequeues and dequeues, however its
   compare-and-swaps fare, until it is told Empty.  Then the ring is empty and it was handed exactly
   the undelivered items, in ticket order.
   */
  lemma DrainReturnsUndelivered<T(!new)>(
    capacity: nat, threads: nat, s: Queue<T>, schedule: seq<(nat, Action<T>)>, s': Queue<T>, c: nat)
    requires capacity >= 2 && Reachable(capacity, threads, s) && c < |s.threads|
    requires forall t: nat :: t < |s.threads| ==> s.threads[t].Idle?
    requires OnlyDequeues(schedule, c) && Exec(s, schedule) == Some(s')
    requires c < |s'.threads| && s'.threads[c].DeqLoadSeq? && Enabled(s', c, LoadSeq) && Step(s', c, LoadSeq).threads[c].Idle?
    ensures s'.dequeuePos == s'.enqueuePos == s.enqueuePos
    ensures s.delivered <= s'.delivered && s.dequeuePos <= |s.sent|
    ensures Items(s'.delivered[|s.delivered|..]) == s.sent[s.dequeuePos..]
  {
    DrainRun(s, schedule, c);
    ReachableRun(capacity, threads, s, schedule);
    EmptyMeansDrained(capacity, threads, s', c);
    EmptiedInOrder(capacity, threads, s, schedule, s', c);
  }

  lemma {:induction false} ReachableRun<T(!new)>(capacity: nat, threads: nat, s: Queue<T>, schedule: seq<(nat, Action<T>)>)
    requires Reachable(capacity, threads, s) && Exec(s, schedule).Some?
    ensures Reachable(capacity, threads, Exec(s, schedule).value)
    decreases |schedule|
  {
    hide Reachable, Step;
    if schedule != [] {
      ReachableStep(capacity, threads, s, schedule[0].0, schedule[0].1);
      ReachableRun(capacity, threads, Step(s, schedule[0].0, schedule[0].1), schedule[1..]);
    }
  }

  /**
   With any number of consumers, each consumer's dequeues return in ticket order what was sent under
   those tickets, and no ticket is delivered twice, to it or to another.
   */
  lemma ConsumerOrder<T(!new)>(capacity: nat, threads: nat, s: Queue<T>, i: nat, j: nat)
    requires capacity >= 2 && Reachable(capacity, threads, s) && i < j < |s.delivered|
    ensures var a, b := s.delivered[i], s.delivered[j];
            && a.ticket < |s.sent| && b.ticket < |s.sent| && a.ticket != b.ticket
            && a.item == s.sent[a.ticket] && b.item == s.sent[b.ticket]
            && (a.thread == b.thread ==> a.ticket < b.ticket)
  {
    hide Reachable, CellsOk, PcsOk, OwnersUnique;
    ReachableInv(capacity, threads, s);
  }

  // ---------------------------------------------------------------------------
  // One consumer: the ring as a bounded first-in first-out queue

  /** Only `c` has dequeued anything or is about to. */
  ghost predicate LoneConsumer<T>(s: Queue<T>, c: nat)
  {
    && (forall i :: 0 <= i < |s.delivered| ==> s.delivered[i].thread == c)
    && (forall t: nat, p: nat :: Reads(s.threads, t, p) ==> t == c)
  }

  /** What is queued: won tickets whose cells are not released yet. */
  function Contents<T>(s: Queue<T>): seq<T>
    requires |s.delivered| <= |s.sent|
  {
    s.sent[|s.delivered|..]
  }

  lemma LoneTickets<T>(s: Queue<T>, c: nat)
    requires Inv(s) && LoneConsumer(s, c)
    ensures |s.delivered| <= |s.sent| <= |s.delivered| + |s.cells|
    ensures forall i :: 0 <= i < |s.delivered| ==> s.delivered[i].ticket == i
    ensures forall p: nat :: Released(s, p) <==> p < |s.delivered|
    ensures c < |s.threads| && s.threads[c].DeqRelease? ==> s.threads[c].pos == |s.delivered|
  {
    hide CellsOk;
    var hi := LoneConsumerProgress(s, c);
    var ts := Tickets(s.delivered);
    IncreasingCover(ts, 0, hi);
    forall i | 0 <= i < |s.delivered| ensures s.delivered[i].ticket == i { assert ts[i] == s.delivered[i].ticket; }
    forall p: nat ensures Released(s, p) <==> p < |s.delivered| {
      if p < |s.delivered| { assert DeliveredAt(s, p, p); }
    }
  }

  /** What one action does to the queued items. */
  function AfterAction<T(==)>(queued: seq<T>, pc: Pc<T>, a: Action<T>): seq<T> {
    if a == Cas(true) && pc.EnqCas? then queued + [pc.item]
    else if a.StoreSeq? && pc.DeqRelease? && queued != [] then queued[1..]
    else queued
  }

  /**
   With one consumer the ring is a first-in first-out queue of `capacity` places: winning a ticket
   appends, releasing a cell takes the oldest item, nothing else changes the contents, and enqueue
   reports Full exactly when the contents fill the ring.
   */
  lemma RingIsBoundedFifo<T(!new)>(capacity: nat, threads: nat, s: Queue<T>, t: nat, a: Action<T>, c: nat)
    requires capacity >= 2 && Reachable(capacity, threads, s) && LoneConsumer(s, c)
    requires Enabled(s, t, a) && LoneConsumer(Step(s, t, a), c)
    ensures var s' := Step(s, t, a);
            && |s.delivered| <= |s.sent| && |s'.delivered| <= |s'.sent|
            && |Contents(s)| <= capacity && |Contents(s')| <= capacity
            && Contents(s') == AfterAction(Contents(s), s.threads[t], a)
            && (a.StoreSeq? && s.threads[t].DeqRelease? ==> Contents(s) != [] && s.threads[t].item == Contents(s)[0])
            && (a.LoadSeq? && s.threads[t].EnqLoadSeq? ==>
                  (s'.threads[t].Idle? <==> s.threads[t].pos == s.enqueuePos && |Contents(s)| == capacity))
  {
    ReachableCells(capacity, threads, s);
    ReachableInv(capacity, threads, s);
    StepInv(s, t, a);
    LoneTickets(s, c);
    LoneTickets(Step(s, t, a), c);
    if a.LoadSeq? && s.threads[t].EnqLoadSeq? {
      FullIffUnreleased(capacity, threads, s, t);
    }
    if a.StoreSeq? && s.threads[t].DeqRelease? {
      OldestTaken(s, t, c);
    }
    FifoStep(s, t, a);
  }

  lemma OldestTaken<T>(s: Queue<T>, t: nat, c: nat)
    requires Inv(s) && LoneConsumer(s, c) && t < |s.threads| && s.threads[t].DeqRelease?
    ensures |s.delivered| < |s.sent| && s.threads[t].item == Contents(s)[0]
  {
    hide CellsOk, HistoryOk, OrderOk, OwnersUnique;
    assert Reads(s.threads, t, s.threads[t].pos);
    LoneTickets(s, c);
    assert PcOk(s, s.threads[t]);
  }

  lemma FifoStep<T>(s: Queue<T>, t: nat, a: Action<T>)
    requires Enabled(s, t, a) && |s.delivered| <= |s.sent|
    requires a.StoreSeq? && s.threads[t].DeqRelease? ==> |s.delivered| < |s.sent|
    ensures var s' := Step(s, t, a);
            |s'.delivered| <= |s'.sent| && Contents(s') == AfterAction(Contents(s), s.threads[t], a)
  {
  }
}
