/**
 Progress of a thread that runs alone.  A failed compare-and-swap of the source keeps the position it
 tried, so a thread that lost a ticket to another spins until the winner publishes or releases its
 cell; `Spins` is that case.  In every other reachable state an operation returns within seven of the
 thread's own accesses, with the outcome the ring's state determines.
 */
module RingProgress {
  import opened Options
  import opened LockFreeQueue
  import opened RingTheorems

  predicate Enqueuing<T>(pc: Pc<T>) {
    pc.EnqLoadPos? || pc.EnqLoadSeq? || pc.EnqCas? || pc.EnqWrite? || pc.EnqPublish?
  }

  predicate Dequeuing<T>(pc: Pc<T>) {
    pc.DeqLoadPos? || pc.DeqLoadSeq? || pc.DeqCas? || pc.DeqRead? || pc.DeqRelease?
  }

  /** The cell at the tail still holds the item of one lap before. */
  ghost predicate RingFull<T>(s: Queue<T>) {
    s.enqueuePos >= |s.cells| && !Released(s, s.enqueuePos - |s.cells|)
  }

  /** The ticket at the head is not published. */
  ghost predicate RingEmpty<T>(s: Queue<T>) {
    s.dequeuePos == s.enqueuePos || BeingWritten(s, s.dequeuePos)
  }

  /** The thread holds a position whose ticket another thread won and is still working on. */
  ghost predicate Spins<T>(s: Queue<T>, t: nat) {
    && t < |s.threads|
    && var pc := s.threads[t];
       || ((pc.EnqLoadSeq? || pc.EnqCas?) && pc.pos < s.enqueuePos && BeingWritten(s, pc.pos))
       || ((pc.DeqLoadSeq? || pc.DeqCas?) && pc.pos < s.dequeuePos && BeingRead(s, pc.pos))
  }

  /** Every action of the schedule is the thread's own. */
  predicate Own<T>(schedule: seq<(nat, Action<T>)>, t: nat) {
    forall i :: 0 <= i < |schedule| ==> schedule[i].0 == t
  }

  /** The thread returns by these actions of its own. */
  predicate Alone<T>(s: Queue<T>, t: nat, schedule: seq<(nat, Action<T>)>) {
    && Own(schedule, t) && Exec(s, schedule).Some?
    && var s' := Exec(s, schedule).value; t < |s'.threads| && s'.threads[t].Idle?
  }

  // ---------------------------------------------------------------------------
  // What a returned operation has done

  /** Of the threads only `t` moved, to the end of its operation. */
  ghost predicate Returned<T>(s: Queue<T>, s': Queue<T>, t: nat) {
    t < |s.threads| && s'.threads == s.threads[t := Idle] && |s'.cells| == |s.cells| >= 1
  }

  /** The item was sent under ticket `pos` and is published. */
  ghost predicate Enqueued<T>(s: Queue<T>, s': Queue<T>, t: nat, item: T, pos: nat) {
    && Returned(s, s', t) && s'.delivered == s.delivered && s'.dequeuePos == s.dequeuePos
    && At(s', pos) == Cell(pos + 1, Some(item))
  }

  /** The item sent under ticket `pos` was handed over and its cell is free for the next lap. */
  ghost predicate Dequeued<T>(s: Queue<T>, s': Queue<T>, t: nat, pos: nat) {
    && Returned(s, s', t) && s'.sent == s.sent && s'.enqueuePos == s.enqueuePos && pos < |s.sent|
    && s'.delivered == s.delivered + [Delivery(t, pos, s.sent[pos])]
    && At(s', pos) == Cell(pos + |s.cells|, None)
  }

  /** Nothing but the thread's own counter changed. */
  ghost predicate GaveUp<T>(s: Queue<T>, s': Queue<T>, t: nat) {
    t < |s.threads| && s' == SetPc(s, t, Idle)
  }

  /** How an enqueue that nobody disturbs ends. */
  ghost predicate EnqueueOutcome<T>(s: Queue<T>, s': Queue<T>, t: nat) {
    && t < |s.threads| && Enqueuing(s.threads[t])
    && var pc := s.threads[t];
       if pc.EnqWrite? || pc.EnqPublish? then Enqueued(s, s', t, pc.item, pc.pos) && s'.sent == s.sent
       else if RingFull(s) then GaveUp(s, s', t)
       else Enqueued(s, s', t, pc.item, s.enqueuePos) && s'.sent == s.sent + [pc.item]
  }

  /** How a dequeue that nobody disturbs ends. */
  ghost predicate DequeueOutcome<T>(s: Queue<T>, s': Queue<T>, t: nat) {
    && t < |s.threads| && Dequeuing(s.threads[t])
    && var pc := s.threads[t];
       if pc.DeqRead? || pc.DeqRelease? then Dequeued(s, s', t, pc.pos)
       else if RingEmpty(s) then GaveUp(s, s', t)
       else Dequeued(s, s', t, s.dequeuePos)
  }

  // ---------------------------------------------------------------------------
  // One action at a time

  lemma ExecCons<T>(s: Queue<T>, t: nat, a: Action<T>, rest: seq<(nat, Action<T>)>)
    requires Enabled(s, t, a) && Own(rest, t)
    ensures Exec(s, [(t, a)] + rest) == Exec(Step(s, t, a), rest) && Own([(t, a)] + rest, t)
  {
    assert ([(t, a)] + rest)[1..] == rest;
  }

  lemma FromPublish<T>(s: Queue<T>, t: nat) returns (schedule: seq<(nat, Action<T>)>)
    requires Inv(s) && t < |s.threads| && s.threads[t].EnqPublish?
    ensures |schedule| == 1 && Own(schedule, t) && Exec(s, schedule).Some?
    ensures EnqueueOutcome(s, Exec(s, schedule).value, t)
  {
    hide CellsOk, HistoryOk, OrderOk, OwnersUnique;
    assert PcOk(s, s.threads[t]);
    schedule := [(t, StoreSeq)] + [];
    ExecCons(s, t, StoreSeq, []);
  }

  lemma FromWrite<T>(s: Queue<T>, t: nat) returns (schedule: seq<(nat, Action<T>)>)
    requires Inv(s) && t < |s.threads| && s.threads[t].EnqWrite?
    ensures |schedule| == 2 && Own(schedule, t) && Exec(s, schedule).Some?
    ensures EnqueueOutcome(s, Exec(s, schedule).value, t)
  {
    hide Inv, Exec, Own;
    StepBounds(s);
    StepInv(s, t, AccessData);
    var rest := FromPublish(Step(s, t, AccessData), t);
    schedule := [(t, AccessData)] + rest;
    ExecCons(s, t, AccessData, rest);
  }

  /** At the tail the compare-and-swap wins. */
  lemma FromTail<T>(s: Queue<T>, t: nat) returns (schedule: seq<(nat, Action<T>)>)
    requires Inv(s) && t < |s.threads| && s.threads[t].EnqCas? && s.threads[t].pos == s.enqueuePos
    ensures |schedule| == 3 && Own(schedule, t) && Exec(s, schedule).Some?
    ensures EnqueueOutcome(s, Exec(s, schedule).value, t)
  {
    hide Inv, Exec, Own;
    StepBounds(s);
    StepInv(s, t, Cas(true));
    var rest := FromWrite(Step(s, t, Cas(true)), t);
    schedule := [(t, Cas(true))] + rest;
    ExecCons(s, t, Cas(true), rest);
    TailFree(s, t);
  }

  lemma TailFree<T>(s: Queue<T>, t: nat)
    requires Inv(s) && t < |s.threads| && s.threads[t].EnqCas? && s.threads[t].pos == s.enqueuePos
    ensures !RingFull(s)
  {
    TailCell(s);
    assert PcOk(s, s.threads[t]);
  }

  /** The cell at the tail carries the tail's number exactly when the ring is not full. */
  lemma TailCell<T>(s: Queue<T>)
    requires Inv(s)
    ensures |s.cells| >= 1 && At(s, s.enqueuePos).sequence <= s.enqueuePos
    ensures At(s, s.enqueuePos).sequence == s.enqueuePos <==> !RingFull(s)
  {
    var n := s.enqueuePos;
    assert CellOk(s, n);
    if n >= |s.cells| {
      var p := n - |s.cells|;
      forall u: nat | Reads(s.threads, u, p) ensures !Released(s, p) {}
      assert p < s.dequeuePos ==> BeingRead(s, p) || Released(s, p);
      assert p >= s.dequeuePos ==> !Released(s, p);
    }
  }

  lemma FromTailSeq<T>(s: Queue<T>, t: nat) returns (schedule: seq<(nat, Action<T>)>)
    requires Inv(s) && t < |s.threads| && s.threads[t].EnqLoadSeq? && s.threads[t].pos == s.enqueuePos
    ensures |schedule| <= 4 && Own(schedule, t) && Exec(s, schedule).Some?
    ensures EnqueueOutcome(s, Exec(s, schedule).value, t)
  {
    hide Inv, Exec, Own, RingFull;
    TailCell(s);
    StepInv(s, t, LoadSeq);
    var s1 := Step(s, t, LoadSeq);
    SameFull(s, s1);
    if RingFull(s) {
      schedule := [(t, LoadSeq)] + [];
      NoActions(s1, t);
      ExecCons(s, t, LoadSeq, []);
    } else {
      var rest := FromTail(s1, t);
      schedule := [(t, LoadSeq)] + rest;
      ExecCons(s, t, LoadSeq, rest);
    }
  }

  lemma NoActions<T>(s: Queue<T>, t: nat)
    ensures Exec(s, []) == Some(s) && Own<T>([], t)
  {
  }

  lemma SameFull<T>(s: Queue<T>, s': Queue<T>)
    requires s'.enqueuePos == s.enqueuePos && |s'.cells| == |s.cells| && s'.delivered == s.delivered
    ensures RingFull(s') == RingFull(s)
  {
    assert forall i: nat, p: nat :: DeliveredAt(s', i, p) == DeliveredAt(s, i, p);
  }

  lemma FromLoadPos<T>(s: Queue<T>, t: nat) returns (schedule: seq<(nat, Action<T>)>)
    requires Inv(s) && t < |s.threads| && s.threads[t].EnqLoadPos?
    ensures |schedule| <= 5 && Own(schedule, t) && Exec(s, schedule).Some?
    ensures EnqueueOutcome(s, Exec(s, schedule).value, t)
  {
    hide Inv, Exec, Own, RingFull;
    var a := LoadPos(s.enqueuePos);
    StepBounds(s);
    StepInv(s, t, a);
    var s1 := Step(s, t, a);
    SameFull(s, s1);
    var rest := FromTailSeq(s1, t);
    schedule := [(t, a)] + rest;
    ExecCons(s, t, a, rest);
  }

  lemma StepBounds<T>(s: Queue<T>)
    requires Inv(s)
    ensures |s.cells| >= 2 && s.dequeuePos <= s.enqueuePos == |s.sent|
  {
  }

  /** The cell of a lost ticket carries its number exactly while the winner is writing it. */
  lemma LostCell<T>(s: Queue<T>, pos: nat)
    requires Inv(s) && pos < s.enqueuePos
    ensures |s.cells| >= 1 && At(s, pos).sequence >= pos
    ensures At(s, pos).sequence == pos <==> BeingWritten(s, pos)
  {
    var n := NextUse(s, pos);
    assert CellOk(s, n);
    Laps(s, pos, n);
    forall u: nat | Writes(s.threads, u, pos) ensures At(s, pos).sequence == pos { assert PcOk(s, s.threads[u]); }
  }

  /** The next user of a cell is a lap or more on; one lap, or at least two more numbers. */
  lemma Laps<T>(s: Queue<T>, pos: nat, n: nat)
    requires Bounds(s) && pos < s.enqueuePos && n >= pos + |s.cells| && Slot(n, |s.cells|) == Slot(pos, |s.cells|)
    ensures n == pos + |s.cells| || n >= pos + 2 * |s.cells|
  {
    if pos + |s.cells| < n < pos + 2 * |s.cells| {
      SlotShift(pos, |s.cells|);
      SlotsDiffer(pos + |s.cells|, n, |s.cells|);
    }
  }

  lemma FromLostSeq<T>(s: Queue<T>, t: nat) returns (schedule: seq<(nat, Action<T>)>)
    requires Inv(s) && t < |s.threads| && s.threads[t].EnqLoadSeq? && s.threads[t].pos < s.enqueuePos && !Spins(s, t)
    ensures |schedule| <= 6 && Own(schedule, t) && Exec(s, schedule).Some?
    ensures EnqueueOutcome(s, Exec(s, schedule).value, t)
  {
    hide Inv, Exec, Own, RingFull, BeingWritten, BeingRead;
    LostCell(s, s.threads[t].pos);
    StepInv(s, t, LoadSeq);
    var s1 := Step(s, t, LoadSeq);
    SameFull(s, s1);
    var rest := FromLoadPos(s1, t);
    schedule := [(t, LoadSeq)] + rest;
    ExecCons(s, t, LoadSeq, rest);
  }

  lemma FromLostCas<T>(s: Queue<T>, t: nat) returns (schedule: seq<(nat, Action<T>)>)
    requires Inv(s) && t < |s.threads| && s.threads[t].EnqCas? && s.threads[t].pos < s.enqueuePos && !Spins(s, t)
    ensures |schedule| <= 7 && Own(schedule, t) && Exec(s, schedule).Some?
    ensures EnqueueOutcome(s, Exec(s, schedule).value, t)
  {
    hide Inv, Exec, Own, RingFull, BeingWritten, BeingRead;
    StepBounds(s);
    StepInv(s, t, Cas(false));
    var s1 := Step(s, t, Cas(false));
    SameFull(s, s1);
    SameWriters(s, s1, t, s.threads[t].pos);
    var rest := FromLostSeq(s1, t);
    schedule := [(t, Cas(false))] + rest;
    ExecCons(s, t, Cas(false), rest);
  }

  /** Threads that own no cell before and after do not change who writes or reads. */
  lemma SameWriters<T>(s: Queue<T>, s': Queue<T>, t: nat, p: nat)
    requires t < |s.threads| == |s'.threads| && s'.threads == s.threads[t := s'.threads[t]]
    requires !Owner(s.threads[t]) && !Owner(s'.threads[t])
    ensures BeingWritten(s', p) == BeingWritten(s, p) && BeingRead(s', p) == BeingRead(s, p)
  {
    assert forall u: nat :: Writes(s'.threads, u, p) == Writes(s.threads, u, p);
    assert forall u: nat :: Reads(s'.threads, u, p) == Reads(s.threads, u, p);
  }

  lemma FromEnqueue<T>(s: Queue<T>, t: nat) returns (schedule: seq<(nat, Action<T>)>)
    requires Inv(s) && t < |s.threads| && Enqueuing(s.threads[t]) && !Spins(s, t)
    ensures |schedule| <= 7 && Own(schedule, t) && Exec(s, schedule).Some?
    ensures EnqueueOutcome(s, Exec(s, schedule).value, t)
  {
    hide CellsOk, HistoryOk, OrderOk, OwnersUnique, Exec, Own, EnqueueOutcome, Spins;
    var pc := s.threads[t];
    assert PcOk(s, pc);
    match pc
    case EnqLoadPos(_) => schedule := FromLoadPos(s, t);
    case EnqLoadSeq(_, pos) => if pos == s.enqueuePos { schedule := FromTailSeq(s, t); } else { schedule := FromLostSeq(s, t); }
    case EnqCas(_, pos) => if pos == s.enqueuePos { schedule := FromTail(s, t); } else { schedule := FromLostCas(s, t); }
    case EnqWrite(_, _) => schedule := FromWrite(s, t);
    case EnqPublish(_, _) => schedule := FromPublish(s, t);
  }

  lemma FromRelease<T>(s: Queue<T>, t: nat) returns (schedule: seq<(nat, Action<T>)>)
    requires Inv(s) && t < |s.threads| && s.threads[t].DeqRelease?
    ensures |schedule| == 1 && Own(schedule, t) && Exec(s, schedule).Some?
    ensures DequeueOutcome(s, Exec(s, schedule).value, t)
  {
    hide CellsOk, HistoryOk, OrderOk, OwnersUnique;
    assert PcOk(s, s.threads[t]);
    schedule := [(t, StoreSeq)] + [];
    ExecCons(s, t, StoreSeq, []);
  }

  lemma FromRead<T>(s: Queue<T>, t: nat) returns (schedule: seq<(nat, Action<T>)>)
    requires Inv(s) && t < |s.threads| && s.threads[t].DeqRead?
    ensures |schedule| == 2 && Own(schedule, t) && Exec(s, schedule).Some?
    ensures DequeueOutcome(s, Exec(s, schedule).value, t)
  {
    hide Inv, Exec, Own;
    StepBounds(s);
    ReadEnabled(s, t);
    StepInv(s, t, AccessData);
    var rest := FromRelease(Step(s, t, AccessData), t);
    schedule := [(t, AccessData)] + rest;
    ExecCons(s, t, AccessData, rest);
  }

  lemma ReadEnabled<T>(s: Queue<T>, t: nat)
    requires Inv(s) && t < |s.threads| && s.threads[t].DeqRead?
    ensures Enabled(s, t, AccessData)
  {
    assert PcOk(s, s.threads[t]);
  }

  /** At the head the compare-and-swap wins. */
  lemma FromHead<T>(s: Queue<T>, t: nat) returns (schedule: seq<(nat, Action<T>)>)
    requires Inv(s) && t < |s.threads| && s.threads[t].DeqCas? && s.threads[t].pos == s.dequeuePos
    ensures |schedule| == 3 && Own(schedule, t) && Exec(s, schedule).Some?
    ensures DequeueOutcome(s, Exec(s, schedule).value, t)
  {
    hide Inv, Exec, Own, RingEmpty;
    StepBounds(s);
    StepInv(s, t, Cas(true));
    var rest := FromRead(Step(s, t, Cas(true)), t);
    schedule := [(t, Cas(true))] + rest;
    ExecCons(s, t, Cas(true), rest);
    HeadPublished(s, t);
  }

  lemma HeadPublished<T>(s: Queue<T>, t: nat)
    requires Inv(s) && t < |s.threads| && s.threads[t].DeqCas? && s.threads[t].pos == s.dequeuePos
    ensures !RingEmpty(s)
  {
    HeadCell(s);
    assert PcOk(s, s.threads[t]);
  }

  /** The cell at the head carries the published number exactly when the ring is not empty there. */
  lemma HeadCell<T>(s: Queue<T>)
    requires Inv(s)
    ensures |s.cells| >= 1 && At(s, s.dequeuePos).sequence <= s.dequeuePos + 1
    ensures At(s, s.dequeuePos).sequence == s.dequeuePos + 1 <==> !RingEmpty(s)
  {
    var n := NextUse(s, s.dequeuePos);
    if s.dequeuePos < s.enqueuePos { Laps(s, s.dequeuePos, n); }
    assert CellOk(s, n);
    TailCell(s);
    forall u: nat | Writes(s.threads, u, s.dequeuePos) ensures At(s, s.dequeuePos).sequence == s.dequeuePos {
      assert PcOk(s, s.threads[u]);
    }
  }

  lemma FromHeadSeq<T>(s: Queue<T>, t: nat) returns (schedule: seq<(nat, Action<T>)>)
    requires Inv(s) && t < |s.threads| && s.threads[t].DeqLoadSeq? && s.threads[t].pos == s.dequeuePos
    ensures |schedule| <= 4 && Own(schedule, t) && Exec(s, schedule).Some?
    ensures DequeueOutcome(s, Exec(s, schedule).value, t)
  {
    hide Inv, Exec, Own, RingEmpty;
    HeadCell(s);
    StepInv(s, t, LoadSeq);
    var s1 := Step(s, t, LoadSeq);
    SameEmpty(s, s1, t);
    if RingEmpty(s) {
      schedule := [(t, LoadSeq)] + [];
      NoActions(s1, t);
      ExecCons(s, t, LoadSeq, []);
    } else {
      var rest := FromHead(s1, t);
      schedule := [(t, LoadSeq)] + rest;
      ExecCons(s, t, LoadSeq, rest);
    }
  }

  lemma SameEmpty<T>(s: Queue<T>, s': Queue<T>, t: nat)
    requires s'.enqueuePos == s.enqueuePos && s'.dequeuePos == s.dequeuePos
    requires t < |s.threads| == |s'.threads| && s'.threads == s.threads[t := s'.threads[t]]
    requires !Owner(s.threads[t]) && !Owner(s'.threads[t])
    ensures RingEmpty(s') == RingEmpty(s)
  {
    hide BeingWritten;
    SameWriters(s, s', t, s.dequeuePos);
  }

  lemma FromHeadLoad<T>(s: Queue<T>, t: nat) returns (schedule: seq<(nat, Action<T>)>)
    requires Inv(s) && t < |s.threads| && s.threads[t].DeqLoadPos?
    ensures |schedule| <= 5 && Own(schedule, t) && Exec(s, schedule).Some?
    ensures DequeueOutcome(s, Exec(s, schedule).value, t)
  {
    hide Inv, Exec, Own, RingEmpty;
    var a := LoadPos(s.dequeuePos);
    StepBounds(s);
    StepInv(s, t, a);
    var s1 := Step(s, t, a);
    SameEmpty(s, s1, t);
    var rest := FromHeadSeq(s1, t);
    schedule := [(t, a)] + rest;
    ExecCons(s, t, a, rest);
  }

  /** The cell of a claimed ticket carries its published number exactly while the claimer is reading it. */
  lemma ClaimedCell<T>(s: Queue<T>, pos: nat)
    requires Inv(s) && pos < s.dequeuePos
    ensures |s.cells| >= 1 && At(s, pos).sequence >= pos + 1
    ensures At(s, pos).sequence == pos + 1 <==> BeingRead(s, pos)
  {
    var n := NextUse(s, pos);
    assert CellOk(s, n);
    Laps(s, pos, n);
    forall u: nat | Reads(s.threads, u, pos) ensures At(s, pos).sequence == pos + 1 { assert PcOk(s, s.threads[u]); }
  }

  lemma FromClaimedSeq<T>(s: Queue<T>, t: nat) returns (schedule: seq<(nat, Action<T>)>)
    requires Inv(s) && t < |s.threads| && s.threads[t].DeqLoadSeq? && s.threads[t].pos < s.dequeuePos && !Spins(s, t)
    ensures |schedule| <= 6 && Own(schedule, t) && Exec(s, schedule).Some?
    ensures DequeueOutcome(s, Exec(s, schedule).value, t)
  {
    hide Inv, Exec, Own, RingEmpty, BeingWritten, BeingRead;
    ClaimedCell(s, s.threads[t].pos);
    StepInv(s, t, LoadSeq);
    var s1 := Step(s, t, LoadSeq);
    SameEmpty(s, s1, t);
    var rest := FromHeadLoad(s1, t);
    schedule := [(t, LoadSeq)] + rest;
    ExecCons(s, t, LoadSeq, rest);
  }

  lemma FromClaimedCas<T>(s: Queue<T>, t: nat) returns (schedule: seq<(nat, Action<T>)>)
    requires Inv(s) && t < |s.threads| && s.threads[t].DeqCas? && s.threads[t].pos < s.dequeuePos && !Spins(s, t)
    ensures |schedule| <= 7 && Own(schedule, t) && Exec(s, schedule).Some?
    ensures DequeueOutcome(s, Exec(s, schedule).value, t)
  {
    hide Inv, Exec, Own, RingEmpty, BeingWritten, BeingRead;
    StepBounds(s);
    StepInv(s, t, Cas(false));
    var s1 := Step(s, t, Cas(false));
    SameEmpty(s, s1, t);
    SameWriters(s, s1, t, s.threads[t].pos);
    var rest := FromClaimedSeq(s1, t);
    schedule := [(t, Cas(false))] + rest;
    ExecCons(s, t, Cas(false), rest);
  }

  lemma FromDequeue<T>(s: Queue<T>, t: nat) returns (schedule: seq<(nat, Action<T>)>)
    requires Inv(s) && t < |s.threads| && Dequeuing(s.threads[t]) && !Spins(s, t)
    ensures |schedule| <= 7 && Own(schedule, t) && Exec(s, schedule).Some?
    ensures DequeueOutcome(s, Exec(s, schedule).value, t)
  {
    hide CellsOk, HistoryOk, OrderOk, OwnersUnique, Exec, Own, DequeueOutcome, Spins;
    var pc := s.threads[t];
    assert PcOk(s, pc);
    match pc
    case DeqLoadPos => schedule := FromHeadLoad(s, t);
    case DeqLoadSeq(pos) => if pos == s.dequeuePos { schedule := FromHeadSeq(s, t); } else { schedule := FromClaimedSeq(s, t); }
    case DeqCas(pos) => if pos == s.dequeuePos { schedule := FromHead(s, t); } else { schedule := FromClaimedCas(s, t); }
    case DeqRead(_) => schedule := FromRead(s, t);
    case DeqRelease(_, _) => schedule := FromRelease(s, t);
  }

  // ---------------------------------------------------------------------------
  // Every reachable state

  /**
   An enqueue that does not spin returns after at most seven of its own accesses.  A thread that has
   its ticket publishes its item; otherwise the item is sent under the next ticket and published, or
   the ring is full and nothing has changed.
   */
  lemma SoloEnqueue<T(!new)>(capacity: nat, threads: nat, s: Queue<T>, t: nat) returns (schedule: seq<(nat, Action<T>)>)
    requires capacity >= 2 && Reachable(capacity, threads, s)
    requires t < |s.threads| && Enqueuing(s.threads[t]) && !Spins(s, t)
    ensures |schedule| <= 7 && Own(schedule, t) && Exec(s, schedule).Some?
    ensures EnqueueOutcome(s, Exec(s, schedule).value, t)
  {
    hide Reachable, Inv, Exec, Own, EnqueueOutcome, Spins;
    ReachableInv(capacity, threads, s);
    schedule := FromEnqueue(s, t);
  }

  /**
   A dequeue that does not spin returns after at most seven of its own accesses, with the item of the
   ticket it has or of the head; or the head is unpublished and nothing has changed.
   */
  lemma SoloDequeue<T(!new)>(capacity: nat, threads: nat, s: Queue<T>, t: nat) returns (schedule: seq<(nat, Action<T>)>)
    requires capacity >= 2 && Reachable(capacity, threads, s)
    requires t < |s.threads| && Dequeuing(s.threads[t]) && !Spins(s, t)
    ensures |schedule| <= 7 && Own(schedule, t) && Exec(s, schedule).Some?
    ensures DequeueOutcome(s, Exec(s, schedule).value, t)
  {
    hide Reachable, Inv, Exec, Own, DequeueOutcome, Spins;
    ReachableInv(capacity, threads, s);
    schedule := FromDequeue(s, t);
  }

  /** A spinning thread goes round between two counters, whatever it loads and however its swaps fail. */
  lemma SpinStep<T>(s: Queue<T>, t: nat, a: Action<T>)
    requires Inv(s) && Spins(s, t) && Enabled(s, t, a)
    ensures var s' := Step(s, t, a); Spins(s', t) && !s'.threads[t].Idle? && s' == SetPc(s, t, s'.threads[t])
  {
    hide BeingWritten, BeingRead, Inv;
    var pos := s.threads[t].pos;
    if s.threads[t].EnqLoadSeq? || s.threads[t].EnqCas? { LostCell(s, pos); } else { ClaimedCell(s, pos); }
    SameWriters(s, Step(s, t, a), t, pos);
  }

  lemma {:induction false} SpinsOn<T>(s: Queue<T>, t: nat, schedule: seq<(nat, Action<T>)>)
    requires Inv(s) && Spins(s, t) && Own(schedule, t) && Exec(s, schedule).Some?
    ensures var s' := Exec(s, schedule).value;
            Spins(s', t) && !s'.threads[t].Idle? && s' == SetPc(s, t, s'.threads[t])
    decreases |schedule|
  {
    hide Inv, Step, BeingWritten, BeingRead;
    if schedule != [] {
      assert schedule[0].0 == t;
      var a := schedule[0].1;
      SpinStep(s, t, a);
      StepInv(s, t, a);
      SpinsOn(Step(s, t, a), t, schedule[1..]);
    }
  }

  /** A thread left to itself can return exactly when it does not spin. */
  lemma ReturnsIff<T(!new)>(capacity: nat, threads: nat, s: Queue<T>, t: nat)
    requires capacity >= 2 && Reachable(capacity, threads, s) && t < |s.threads| && !s.threads[t].Idle?
    ensures (exists schedule: seq<(nat, Action<T>)> :: Alone(s, t, schedule)) <==> !Spins(s, t)
  {
    hide Reachable, Inv, Spins;
    ReachableInv(capacity, threads, s);
    if Spins(s, t) {
      forall schedule: seq<(nat, Action<T>)> | Own(schedule, t) && Exec(s, schedule).Some?
        ensures !Alone(s, t, schedule)
      {
        SpinsOn(s, t, schedule);
      }
    } else if Enqueuing(s.threads[t]) {
      var schedule := FromEnqueue(s, t);
      assert Alone(s, t, schedule);
    } else {
      var schedule := FromDequeue(s, t);
      assert Alone(s, t, schedule);
    }
  }

  /** At most two accesses of the winner of the ticket end the spin. */
  lemma WinnerEndsSpin<T(!new)>(capacity: nat, threads: nat, s: Queue<T>, t: nat)
    returns (u: nat, schedule: seq<(nat, Action<T>)>)
    requires capacity >= 2 && Reachable(capacity, threads, s) && Spins(s, t)
    ensures u != t && |schedule| <= 2 && Own(schedule, u) && Exec(s, schedule).Some?
    ensures var s' := Exec(s, schedule).value; |s'.threads| == |s.threads| && s'.threads[t] == s.threads[t] && !Spins(s', t)
  {
    hide Reachable, Exec, CellsOk, HistoryOk, OrderOk, PcsOk;
    ReachableInv(capacity, threads, s);
    var pos := s.threads[t].pos;
    if s.threads[t].EnqLoadSeq? || s.threads[t].EnqCas? {
      u :| Writes(s.threads, u, pos);
      if s.threads[u].EnqWrite? { schedule := FromWrite(s, u); } else { schedule := FromPublish(s, u); }
      var s' := Exec(s, schedule).value;
      forall v: nat ensures !Writes(s'.threads, v, pos) { assert v != u ==> Writes(s'.threads, v, pos) == Writes(s.threads, v, pos); }
    } else {
      u :| Reads(s.threads, u, pos);
      if s.threads[u].DeqRead? { schedule := FromRead(s, u); } else { schedule := FromRelease(s, u); }
      var s' := Exec(s, schedule).value;
      forall v: nat ensures !Reads(s'.threads, v, pos) { assert v != u ==> Reads(s'.threads, v, pos) == Reads(s.threads, v, pos); }
    }
  }

  // ---------------------------------------------------------------------------
  // A thread does spin

  /** Two threads, two cells, nothing sent but under ticket 0. */
  function TwoThreads<T>(tail: nat, first: Pc<T>, second: Pc<T>, sent: seq<T>): Queue<T> {
    Queue([Cell(0, None), Cell(1, None)], tail, 0, [first, second], sent, [])
  }

  lemma Then<T(!new)>(s: Queue<T>, t: nat, a: Action<T>, s': Queue<T>)
    requires Reachable(2, 2, s) && Enabled(s, t, a) && Step(s, t, a) == s'
    ensures Reachable(2, 2, s')
  {
    ReachableStep(2, 2, s, t, a);
  }

  /**
   The second of two threads that saw ticket 0 loses it to the first and spins: until the first moves
   again its enqueue cannot return, although a cell is free.
   */
  lemma LoserSpins<T(!new)>(x: T, y: T)
    ensures var s := TwoThreads(1, EnqWrite(x, 0), EnqCas(y, 0), [x]);
            Reachable(2, 2, s) && Spins(s, 1) && !RingFull(s)
  {
    hide Reachable, Slot;
    var none: seq<T> := [];
    TwoStart<T>();
    Then(TwoThreads(0, Idle, Idle, none), 0, CallEnqueue(x), TwoThreads(0, EnqLoadPos(x), Idle, none));
    Then(TwoThreads(0, EnqLoadPos(x), Idle, none), 0, LoadPos(0), TwoThreads(0, EnqLoadSeq(x, 0), Idle, none));
    Then(TwoThreads(0, EnqLoadSeq(x, 0), Idle, none), 0, LoadSeq, TwoThreads(0, EnqCas(x, 0), Idle, none));
    Then(TwoThreads(0, EnqCas(x, 0), Idle, none), 1, CallEnqueue(y), TwoThreads(0, EnqCas(x, 0), EnqLoadPos(y), none));
    Then(TwoThreads(0, EnqCas(x, 0), EnqLoadPos(y), none), 1, LoadPos(0), TwoThreads(0, EnqCas(x, 0), EnqLoadSeq(y, 0), none));
    Then(TwoThreads(0, EnqCas(x, 0), EnqLoadSeq(y, 0), none), 1, LoadSeq, TwoThreads(0, EnqCas(x, 0), EnqCas(y, 0), none));
    Then(TwoThreads(0, EnqCas(x, 0), EnqCas(y, 0), none), 0, Cas(true), TwoThreads(1, EnqWrite(x, 0), EnqCas(y, 0), [x]));
    var s := TwoThreads(1, EnqWrite(x, 0), EnqCas(y, 0), [x]);
    assert Writes(s.threads, 0, 0);
  }

  lemma TwoStart<T(!new)>()
    ensures Reachable(2, 2, TwoThreads<T>(0, Idle, Idle, [])) && Slot(0, 2) == 0
  {
    assert Init<T>(2, 2) == TwoThreads(0, Idle, Idle, []);
    assert Exec(Init<T>(2, 2), []) == Some(TwoThreads<T>(0, Idle, Idle, []));
  }
}
