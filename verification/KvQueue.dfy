/** The engine's bounded queue is the lock-free ring with the worker as its only consumer. */
module KvQueue {
  import opened Options
  import opened KvModel
  import Ring = LockFreeQueue
  import RingTheorems

  /** The ring of `QUEUE_CAPACITY` cells, reached by some schedule, holds exactly the queued writes. */
  ghost predicate Carries(ring: Ring.Queue<WriteOp>, threads: nat, worker: nat, s: Engine) {
    && RingTheorems.Reachable(QUEUE_CAPACITY, threads, ring) && RingTheorems.LoneConsumer(ring, worker)
    && |ring.delivered| <= |ring.sent| && RingTheorems.Contents(ring) == s.queue
  }

  /** What one ring action means for the engine: a write accepted, a write taken by the worker, or nothing. */
  function Meaning(s: Engine, pc: Ring.Pc<WriteOp>, a: Ring.Action<WriteOp>): Engine {
    if a == Ring.Cas(true) && pc.EnqCas? && Write(s, pc.item).Some? then Write(s, pc.item).value
    else if a.StoreSeq? && pc.DeqRelease? then Dequeue(s)
    else s
  }

  /**
   In Batch mode the ring carries the engine's queue through every action of every thread: winning a
   ticket is an accepted write, releasing a cell is the worker taking the oldest write, and a thread
   that holds the tail is told Full exactly when the engine's write finds no room.
   */
  lemma RingCarriesQueue(
    s: Engine, ring: Ring.Queue<WriteOp>, threads: nat, worker: nat, t: nat, a: Ring.Action<WriteOp>)
    requires s.mode.Batch? && Carries(ring, threads, worker, s)
    requires Ring.Enabled(ring, t, a) && RingTheorems.LoneConsumer(Ring.Step(ring, t, a), worker)
    ensures var ring', pc := Ring.Step(ring, t, a), ring.threads[t];
            && Carries(ring', threads, worker, Meaning(s, pc, a))
            && (a == Ring.Cas(true) && pc.EnqCas? ==> Write(s, pc.item).Some?)
            && (a.StoreSeq? && pc.DeqRelease? ==> s.queue != [] && pc.item == s.queue[0])
            && (a.LoadSeq? && pc.EnqLoadSeq? && pc.pos == ring.enqueuePos ==>
                  (ring'.threads[t].Idle? <==> Write(s, pc.item).None?))
  {
    hide Ring.Step, Ring.Enabled, RingTheorems.Reachable, RingTheorems.LoneConsumer;
    RingTheorems.RingIsBoundedFifo(QUEUE_CAPACITY, threads, ring, t, a, worker);
    RingTheorems.ReachableStep(QUEUE_CAPACITY, threads, ring, t, a);
  }

  // ---------------------------------------------------------------------------
  // Whole schedules

  predicate Dequeuing(pc: Ring.Pc<WriteOp>) {
    pc.DeqLoadPos? || pc.DeqLoadSeq? || pc.DeqCas? || pc.DeqRead? || pc.DeqRelease?
  }

  /** Nobody but the worker dequeues or has dequeued. */
  ghost predicate OnlyWorker(ring: Ring.Queue<WriteOp>, worker: nat) {
    && (forall i :: 0 <= i < |ring.delivered| ==> ring.delivered[i].thread == worker)
    && forall t :: 0 <= t < |ring.threads| && Dequeuing(ring.threads[t]) ==> t == worker
  }

  /** Only the worker calls dequeue. */
  predicate WorkerDequeues(schedule: seq<(nat, Ring.Action<WriteOp>)>, worker: nat) {
    forall i :: 0 <= i < |schedule| && schedule[i].1.CallDequeue? ==> schedule[i].0 == worker
  }

  lemma OnlyWorkerIsLone(ring: Ring.Queue<WriteOp>, worker: nat)
    requires OnlyWorker(ring, worker)
    ensures RingTheorems.LoneConsumer(ring, worker)
  {
  }

  lemma OnlyWorkerStep(ring: Ring.Queue<WriteOp>, worker: nat, t: nat, a: Ring.Action<WriteOp>)
    requires OnlyWorker(ring, worker) && Ring.Enabled(ring, t, a) && (a.CallDequeue? ==> t == worker)
    ensures OnlyWorker(Ring.Step(ring, t, a), worker)
  {
  }

  /** What a whole schedule of ring actions means for the engine. */
  function Meant(s: Engine, ring: Ring.Queue<WriteOp>, schedule: seq<(nat, Ring.Action<WriteOp>)>): Engine
    requires Ring.Exec(ring, schedule).Some?
    decreases |schedule|
  {
    if schedule == [] then s
    else
      var (t, a) := schedule[0];
      Meant(Meaning(s, ring.threads[t], a), Ring.Step(ring, t, a), schedule[1..])
  }

  lemma MeaningBatch(s: Engine, pc: Ring.Pc<WriteOp>, a: Ring.Action<WriteOp>)
    requires s.mode.Batch?
    ensures Meaning(s, pc, a).mode.Batch?
  {
  }

  /** Through every schedule in which only the worker dequeues, the ring carries the engine's queue. */
  lemma {:induction false} RingCarriesRun(
    s: Engine, ring: Ring.Queue<WriteOp>, threads: nat, worker: nat, schedule: seq<(nat, Ring.Action<WriteOp>)>)
    requires s.mode.Batch? && Carries(ring, threads, worker, s) && OnlyWorker(ring, worker)
    requires Ring.Exec(ring, schedule).Some? && WorkerDequeues(schedule, worker)
    ensures Carries(Ring.Exec(ring, schedule).value, threads, worker, Meant(s, ring, schedule))
    decreases |schedule|
  {
    hide Carries, OnlyWorker, Ring.Step, Meaning;
    if schedule != [] {
      var (t, a) := schedule[0];
      OnlyWorkerStep(ring, worker, t, a);
      OnlyWorkerIsLone(Ring.Step(ring, t, a), worker);
      RingCarriesQueue(s, ring, threads, worker, t, a);
      MeaningBatch(s, ring.threads[t], a);
      RingCarriesRun(Meaning(s, ring.threads[t], a), Ring.Step(ring, t, a), threads, worker, schedule[1..]);
    }
  }

  /** An engine just opened, over a new ring: every such schedule carries its queue. */
  lemma RingCarriesOpen(disk: Store, threads: nat, worker: nat, schedule: seq<(nat, Ring.Action<WriteOp>)>)
    requires WorkerDequeues(schedule, worker)
    requires Ring.Exec(Ring.Init<WriteOp>(QUEUE_CAPACITY, threads), schedule).Some?
    ensures var ring := Ring.Init<WriteOp>(QUEUE_CAPACITY, threads);
            Carries(Ring.Exec(ring, schedule).value, threads, worker, Meant(Open(disk, Batch), ring, schedule))
  {
    hide Meant;
    var ring := Ring.Init<WriteOp>(QUEUE_CAPACITY, threads);
    assert Ring.Exec(ring, []) == Some(ring);
    assert OnlyWorker(ring, worker);
    OnlyWorkerIsLone(ring, worker);
    RingCarriesRun(Open(disk, Batch), ring, threads, worker, schedule);
  }
}
