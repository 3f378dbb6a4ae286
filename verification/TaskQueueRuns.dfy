/** What holds in every run of the task queue, however its steps interleave. */
module TaskQueueRuns {
  import opened Words
  import opened Backoff
  import opened TaskQueue
  import opened TaskQueueSafety
  import MapSums

  lemma {:induction false} ExecInv(s: State, steps: seq<Step>)
    requires Inv(s)
    ensures Inv(Exec(s, steps))
    decreases |steps|
  {
    if steps != [] {
      InvStep(s, steps[0]);
      ExecInv(Apply(s, steps[0]), steps[1..]);
    }
  }

  lemma InitInv(maxConcurrency: int32)
    requires maxConcurrency >= 1
    ensures Inv(Init(maxConcurrency))
  {
    assert Concurrencies(map[]) == map[];
    assert Weights(map[]) == map[];
  }

  // ----- Ownership -----

  /** The worker whose own step this is. */
  predicate StepOf(e: Step, w: WorkerId) {
    (e.Revert? || e.Complete? || e.Fail? || e.WriteLost?) && e.worker == w
  }

  /**
   In every run, until the database is closed: a row held by a worker is running, unchanged since that
   worker took it, and held by no other worker. This is what makes the unguarded UPDATEs safe.
   */
  lemma HeldRowsAreRunningAndExclusive(maxConcurrency: int32, steps: seq<Step>, w: WorkerId)
    requires maxConcurrency >= 1
    ensures var s := Exec(Init(maxConcurrency), steps);
            s.dbOpen && Holds(s, w) ==>
              var c := s.workers[w].claim;
              && c.id in s.tasks && s.tasks[c.id].status.Running? && s.tasks[c.id].queue == w.queue
              && s.tasks[c.id].attempt == c.attempt && s.tasks[c.id].maxRetries == c.maxRetries
              && s.tasks[c.id].payload == c.payload
              && forall v :: Holds(s, v) && s.workers[v].claim.id == c.id ==> v == w
  {
    InitInv(maxConcurrency);
    ExecInv(Init(maxConcurrency), steps);
  }

  ghost predicate Untouched(s: State, s': State, w: WorkerId)
    requires Holds(s, w)
  {
    var id := s.workers[w].claim.id;
    Holds(s', w) && s'.workers[w] == s.workers[w] && id in s.tasks && id in s'.tasks && s'.tasks[id] == s.tasks[id]
  }

  lemma CallsSkipHeldRows(s: State, e: Step, w: WorkerId)
    requires Inv(s) && s.dbOpen && Holds(s, w) && IsCall(e)
    ensures Untouched(s, Apply(s, e), w)
  {
    assert ClaimMatches(s.tasks, w.queue, s.workers[w].claim);
    if e.CreateQueue? {
      CreateQueueSkipsHeldRows(s, e.name, e.config, e.now, w);
    }
  }

  lemma CreateQueueSkipsHeldRows(s: State, name: string, config: QueueConfig, now: int, w: WorkerId)
    requires Inv(s) && s.dbOpen && Holds(s, w)
    ensures Untouched(s, AfterCreateQueue(s, name, config, now), w)
  {
    assert ClaimMatches(s.tasks, w.queue, s.workers[w].claim);
    if !QueueRejected(s, name) {
      assert w !in Spawned(name, AfterCreateQueue(s, name, config, now).queues[name].concurrency);
    }
  }

  lemma OtherStepsSkipHeldRows(s: State, e: Step, w: WorkerId)
    requires Inv(s) && s.dbOpen && Holds(s, w)
    requires e.Dequeue? || e.DequeueLost? || e.Cleanup? || e.CancelContext?
    ensures Untouched(s, Apply(s, e), w)
  {
    assert ClaimMatches(s.tasks, w.queue, s.workers[w].claim);
  }

  lemma OtherWorkersSkipHeldRows(s: State, e: Step, w: WorkerId)
    requires Inv(s) && s.dbOpen && Holds(s, w)
    requires (e.Revert? || e.Complete? || e.Fail? || e.WriteLost?) && e.worker != w
    ensures Untouched(s, Apply(s, e), w)
  {
    assert ClaimMatches(s.tasks, w.queue, s.workers[w].claim);
    if Holds(s, e.worker) {
      assert s.workers[e.worker].claim.id != s.workers[w].claim.id;
    }
  }

  /** Nobody but its worker changes a held row, until the database is closed or the process goes away. */
  lemma HeldRowIsUntouched(s: State, e: Step, w: WorkerId)
    requires Inv(s) && s.dbOpen && Holds(s, w)
    requires !StepOf(e, w) && !e.CloseDb? && !e.Restart?
    ensures Untouched(s, Apply(s, e), w)
  {
    if e.Revert? || e.Complete? || e.Fail? || e.WriteLost? {
      OtherWorkersSkipHeldRows(s, e, w);
    } else if IsCall(e) {
      CallsSkipHeldRows(s, e, w);
    } else {
      OtherStepsSkipHeldRows(s, e, w);
    }
  }

  lemma HeldClaim(s: State, w: WorkerId)
    requires Inv(s) && Holds(s, w)
    ensures w.queue in s.queues
    ensures s.dbOpen ==> ClaimMatches(s.tasks, w.queue, s.workers[w].claim) && s.workers[w].claim.id in s.history
  {
  }

  // ----- The life of a row -----

  /** The changes of one row that the statuses allow; everything not mentioned stays as it was. */
  predicate LegalChange(t: Task, u: Task) {
    var same := t.(status := u.status, updatedAt := u.updatedAt);
    || u == t
    || (t.status.Pending? && u.status.Cancelled? && u == same)
    || (t.status.Pending? && u.status.Running? && u == same.(attempt := t.attempt + 1))
    || (t.status.Running? && u.status.Completed? && u == same.(message := u.message))
    || (t.status.Running? && u.status.Failed? && u == same.(message := u.message) && t.attempt > t.maxRetries)
       // Retry after a backoff
    || (t.status.Running? && u.status.Pending? && u == same.(nextRunAt := u.nextRunAt) && t.attempt <= t.maxRetries
        && u.updatedAt + 1 <= u.nextRunAt <= u.updatedAt + MAX_BACKOFF_MS)
       // Recovery after a crash, and at Close
    || (t.status.Running? && u.status.Pending? && u == same)
       // Reverted at shutdown: the interrupted attempt does not count
    || (t.status.Running? && u.status.Pending? && u == same.(attempt := u.attempt) && u.attempt == t.attempt - 1)
  }

  /** Statements that select rows by status. */
  lemma GuardedChangesAreLegal(s: State, e: Step, id: TaskId)
    requires Inv(s) && id in s.tasks
    requires !(e.Revert? || e.Complete? || e.Fail? || e.WriteLost?) && !e.Cleanup?
    ensures id in Apply(s, e).tasks && LegalChange(s.tasks[id], Apply(s, e).tasks[id])
  {
    if e.Dequeue? || e.DequeueLost? {
      TakingIsLegal(s, e.worker, e.id, e.now, id);
    }
  }

  lemma TakingIsLegal(s: State, w: WorkerId, o: TaskId, now: int, id: TaskId)
    requires Inv(s) && id in s.tasks
    ensures id in AfterDequeue(s, w, o, now).tasks && LegalChange(s.tasks[id], AfterDequeue(s, w, o, now).tasks[id])
    ensures id in AfterDequeueLost(s, w, o, now).tasks && LegalChange(s.tasks[id], AfterDequeueLost(s, w, o, now).tasks[id])
  {
    assert CanDequeue(s, w, o, now) ==> s.tasks[o].status.Pending?;
  }

  lemma CleanupIsLegal(s: State, queue: string, now: int, id: TaskId)
    requires Inv(s) && id in s.tasks
    ensures var s' := AfterCleanup(s, queue, now);
            if id in s'.tasks then s'.tasks[id] == s.tasks[id]
            else s.tasks[id].status.Terminal() && s.tasks[id].updatedAt + MIN_RETENTION_MS < now
  {
  }

  /** Statements of a worker, which select its row by id alone (the revert excepted). */
  lemma WorkerChangesAreLegal(s: State, e: Step, id: TaskId)
    requires Inv(s) && id in s.tasks
    requires e.Revert? || e.Complete? || e.Fail? || e.WriteLost?
    ensures id in Apply(s, e).tasks && LegalChange(s.tasks[id], Apply(s, e).tasks[id])
  {
    if Holds(s, e.worker) && s.dbOpen {
      assert ClaimMatches(s.tasks, e.worker.queue, s.workers[e.worker].claim);
    }
  }

  /** Every step changes every row only as LegalChange says, or deletes it after its retention. */
  lemma RowChangesAreLegal(s: State, e: Step, id: TaskId)
    requires Inv(s) && id in s.tasks
    ensures id in Apply(s, e).tasks ==> LegalChange(s.tasks[id], Apply(s, e).tasks[id])
    ensures id !in Apply(s, e).tasks ==>
              && e.Cleanup? && s.tasks[id].status.Terminal()
              && s.tasks[id].updatedAt + MIN_RETENTION_MS < e.now
  {
    if e.Revert? || e.Complete? || e.Fail? || e.WriteLost? {
      WorkerChangesAreLegal(s, e, id);
    } else if e.Cleanup? {
      CleanupIsLegal(s, e.queue, e.now, id);
    } else {
      GuardedChangesAreLegal(s, e, id);
    }
  }

  ghost predicate PresentThroughout(s: State, steps: seq<Step>, id: TaskId)
    decreases |steps|
  {
    id in s.tasks && (steps != [] ==> PresentThroughout(Apply(s, steps[0]), steps[1..], id))
  }

  /** Completed, failed and cancelled rows never change again for as long as they exist. */
  lemma {:induction false} TerminalRowsAreFinal(s: State, steps: seq<Step>, id: TaskId)
    requires Inv(s) && PresentThroughout(s, steps, id) && s.tasks[id].status.Terminal()
    ensures id in Exec(s, steps).tasks && Exec(s, steps).tasks[id] == s.tasks[id]
    decreases |steps|
  {
    if steps != [] {
      InvStep(s, steps[0]);
      RowChangesAreLegal(s, steps[0], id);
      TerminalRowsAreFinal(Apply(s, steps[0]), steps[1..], id);
    }
  }

  /** In every run the attempt counter is dequeues minus reverts, and recovery is the only way past the retries. */
  lemma AttemptsAreAccounted(maxConcurrency: int32, steps: seq<Step>, id: TaskId)
    requires maxConcurrency >= 1
    ensures var s := Exec(Init(maxConcurrency), steps);
            id in s.tasks ==>
              var t := s.tasks[id];
              && id in s.history
              && t.attempt == s.history[id].dequeues - s.history[id].reverts
              && t.attempt <= Max(t.maxRetries, 0) + 1 + s.history[id].resets
              && (t.status.Failed? ==> t.attempt > t.maxRetries)
  {
    InitInv(maxConcurrency);
    ExecInv(Init(maxConcurrency), steps);
  }

  // ----- Draining -----

  function Shifted(s: State, n: nat): State {
    s.(ledger := s.ledger.(dequeues := s.ledger.dequeues + n))
  }

  /** The ledger is bookkeeping: no step depends on it. */
  lemma ApplyShifted(s: State, e: Step, n: nat)
    ensures Apply(Shifted(s, n), e) == Shifted(Apply(s, e), n)
  {
    if e.Dequeue? || e.DequeueLost? {
      DequeueShifted(s, e.worker, e.id, e.now, n);
    } else if e.Revert? {
      RevertShifted(s, e.worker, e.now, n);
    } else if e.Complete? || e.Fail? {
      WritesShifted(s, e.worker, e.message, e.now, n);
    } else if IsCall(e) {
      CallShifted(s, e, n);
    } else if !e.WriteLost? {
      ServiceShifted(s, e, n);
    }
  }

  lemma CallShifted(s: State, e: Step, n: nat)
    requires IsCall(e)
    ensures Apply(Shifted(s, n), e) == Shifted(Apply(s, e), n)
  {
    if e.CreateQueue? {
      CreateQueueShifted(s, e.name, e.config, e.now, n);
    }
  }

  lemma CreateQueueShifted(s: State, name: string, config: QueueConfig, now: int, n: nat)
    ensures AfterCreateQueue(Shifted(s, n), name, config, now) == Shifted(AfterCreateQueue(s, name, config, now), n)
  {
    ResetShifted(s, RunningIn(s.tasks, name), now, n);
    assert QueueRejected(Shifted(s, n), name) == QueueRejected(s, name);
    assert !QueueRejected(s, name) ==> Clamped(Shifted(s, n), config) == Clamped(s, config);
  }

  lemma ServiceShifted(s: State, e: Step, n: nat)
    requires !IsWorkers(e) && !IsCall(e)
    ensures Apply(Shifted(s, n), e) == Shifted(Apply(s, e), n)
  {
    if e.CloseDb? {
      ResetShifted(s, AllRunning(s.tasks), e.now, n);
    }
  }

  lemma ResetShifted(s: State, ids: set<TaskId>, now: int, n: nat)
    ensures Reset(Shifted(s, n), ids, now) == Shifted(Reset(s, ids, now), n)
  {
  }

  lemma DequeueShifted(s: State, w: WorkerId, id: TaskId, now: int, n: nat)
    ensures AfterDequeue(Shifted(s, n), w, id, now) == Shifted(AfterDequeue(s, w, id, now), n)
    ensures AfterDequeueLost(Shifted(s, n), w, id, now) == Shifted(AfterDequeueLost(s, w, id, now), n)
  {
    assert CanDequeue(Shifted(s, n), w, id, now) == CanDequeue(s, w, id, now);
  }

  lemma RevertShifted(s: State, w: WorkerId, now: int, n: nat)
    ensures AfterRevert(Shifted(s, n), w, now) == Shifted(AfterRevert(s, w, now), n)
  {
    if Holds(s, w) {
      assert RowReverted(Shifted(s, n), s.workers[w].claim.id, now) == Shifted(RowReverted(s, s.workers[w].claim.id, now), n);
    }
  }

  lemma WritesShifted(s: State, w: WorkerId, message: string, now: int, n: nat)
    ensures AfterComplete(Shifted(s, n), w, message, now) == Shifted(AfterComplete(s, w, message, now), n)
    ensures AfterFail(Shifted(s, n), w, message, now) == Shifted(AfterFail(s, w, message, now), n)
  {
  }

  lemma {:induction false} ExecShifted(s: State, steps: seq<Step>, n: nat)
    ensures Exec(Shifted(s, n), steps) == Shifted(Exec(s, steps), n)
    decreases |steps|
  {
    if steps != [] {
      ApplyShifted(s, steps[0], n);
      ExecShifted(Apply(s, steps[0]), steps[1..], n);
    }
  }

  ghost function Slack(s: State): int {
    s.ledger.enqueued + s.ledger.reverts + s.ledger.resets - s.ledger.dequeues - Potential(s.tasks)
  }

  /**
   Draining terminates, whatever the interleaving and the outcomes: the dequeues of any run are paid for by the
   potential it starts with, the rows it inserts, and the rows it reverts or resets.
   */
  lemma DequeuesAreBounded(s: State, steps: seq<Step>)
    requires Inv(s)
    ensures var s' := Exec(s, steps);
            && Potential(s'.tasks) >= 0
            && (s'.ledger.dequeues - s.ledger.dequeues) + Potential(s'.tasks)
               <= Potential(s.tasks) + (s'.ledger.enqueued - s.ledger.enqueued)
                  + (s'.ledger.reverts - s.ledger.reverts) + (s'.ledger.resets - s.ledger.resets)
  {
    var n := Slack(s);
    assert Inv(Shifted(s, n));
    ExecInv(Shifted(s, n), steps);
    ExecShifted(s, steps, n);
    MapSums.SumNonNegative(Weights(Exec(s, steps).tasks));
  }

  /** Steps of the workers, of cleanup and of cancellation: no new rows, no recovery, no shutdown. */
  predicate Drains(e: Step) {
    e.Dequeue? || e.DequeueLost? || e.Complete? || e.Fail? || e.WriteLost? || e.Cleanup? || e.Cancel? || e.ClearQueue?
  }

  lemma {:induction false} DrainingAddsNothing(s: State, steps: seq<Step>)
    requires forall i :: 0 <= i < |steps| ==> Drains(steps[i])
    ensures var s' := Exec(s, steps);
            && s'.ledger.enqueued == s.ledger.enqueued
            && s'.ledger.reverts == s.ledger.reverts && s'.ledger.resets == s.ledger.resets
    decreases |steps|
  {
    if steps != [] {
      DrainingAddsNothing(Apply(s, steps[0]), steps[1..]);
    }
  }

  /** Each dequeue while draining costs the potential at least one, so at most Potential(s.tasks) callbacks run. */
  lemma DrainIsBounded(s: State, steps: seq<Step>)
    requires Inv(s)
    requires forall i :: 0 <= i < |steps| ==> Drains(steps[i])
    ensures var s' := Exec(s, steps);
            && Potential(s'.tasks) <= Potential(s.tasks) - (s'.ledger.dequeues - s.ledger.dequeues)
            && s'.ledger.dequeues - s.ledger.dequeues <= Potential(s.tasks)
  {
    DrainingAddsNothing(s, steps);
    DequeuesAreBounded(s, steps);
  }

  lemma PotentialNonNegative(tasks: map<TaskId, Task>)
    ensures Potential(tasks) >= 0
  {
    MapSums.SumNonNegative(Weights(tasks));
  }

  /** A worker's write never raises the potential; only giving the attempt back costs one. */
  lemma WritePotential(s: State, w: WorkerId, message: string, now: int)
    requires Inv(s) && Holds(s, w) && s.dbOpen
    ensures Potential(AfterComplete(s, w, message, now).tasks) <= Potential(s.tasks)
    ensures Potential(AfterFail(s, w, message, now).tasks) <= Potential(s.tasks)
    ensures Potential(AfterRevert(s, w, now).tasks) <= Potential(s.tasks) + 1
  {
    HeldClaim(s, w);
    var c := s.workers[w].claim;
    var t := s.tasks[c.id];
    OneRow(s.tasks, c.id, CompletedRow(t, message, now));
    OneRow(s.tasks, c.id, FailedRow(t, c, s.queues[w.queue].backoffMs, message, now));
    OneRow(s.tasks, c.id, RevertedRow(t, now));
  }

  /** A dequeue costs the potential at least one. */
  lemma TakingCosts(s: State, w: WorkerId, id: TaskId, now: int)
    requires Inv(s) && CanDequeue(s, w, id, now)
    ensures Potential(AfterDequeue(s, w, id, now).tasks) < Potential(s.tasks)
  {
    OneRow(s.tasks, id, AfterDequeue(s, w, id, now).tasks[id]);
  }

  /** A dequeue and the write after it: what becomes of the potential. */
  lemma ProcessedOnce(s: State, w: WorkerId, id: TaskId, now: int)
    requires Inv(s) && CanDequeue(s, w, id, now) && s.tasks[id].attempt < MAX_INT32
    ensures var taken := AfterDequeue(s, w, id, now);
            && (forall message, later :: Potential(AfterComplete(taken, w, message, later).tasks) < Potential(s.tasks))
            && (forall message, later :: Potential(AfterFail(taken, w, message, later).tasks) < Potential(s.tasks))
            && (forall later :: Potential(AfterRevert(taken.(cancelled := true), w, later).tasks) <= Potential(s.tasks))
  {
    var taken := AfterDequeue(s, w, id, now);
    DequeueStep(s, w, id, now);
    TakingCosts(s, w, id, now);
    forall message, later
      ensures Potential(AfterComplete(taken, w, message, later).tasks) < Potential(s.tasks)
      ensures Potential(AfterFail(taken, w, message, later).tasks) < Potential(s.tasks)
    {
      WritePotential(taken, w, message, later);
    }
    var cancelled := taken.(cancelled := true);
    CancelContextStep(taken);
    forall later ensures Potential(AfterRevert(cancelled, w, later).tasks) <= Potential(s.tasks) {
      WritePotential(cancelled, w, "", later);
    }
  }

  lemma NotTakenOrLost(s: State, s': State, w: WorkerId, now: int)
    requires s' == s || exists id :: CanDequeue(s, w, id, now) && s' == AfterDequeueLost(s, w, id, now)
    ensures Potential(s'.tasks) <= Potential(s.tasks)
  {
    if s' != s {
      var id :| CanDequeue(s, w, id, now) && s' == AfterDequeueLost(s, w, id, now);
      OneRow(s.tasks, id, s'.tasks[id]);
    }
  }

  // ----- Concurrency -----

  function BusyWorkers(s: State): set<WorkerId> {
    set w | w in s.workers && s.workers[w].Busy?
  }

  function BusyIn(s: State, queue: string): set<WorkerId> {
    set w | w in s.workers && s.workers[w].Busy? && w.queue == queue
  }

  lemma {:induction false} SubsetSize<T>(a: set<T>, b: set<T>)
    requires a <= b
    ensures |a| <= |b|
  {
    assert b == a + (b - a);
    assert |b| == |a| + |b - a|;
  }

  lemma StepKeepsMaxConcurrency(s: State, e: Step)
    ensures Apply(s, e).maxConcurrency == s.maxConcurrency
  {
  }

  lemma {:induction false} MaxConcurrencyIsFixed(s: State, steps: seq<Step>)
    ensures Exec(s, steps).maxConcurrency == s.maxConcurrency
    decreases |steps|
  {
    if steps != [] {
      StepKeepsMaxConcurrency(s, steps[0]);
      MaxConcurrencyIsFixed(Apply(s, steps[0]), steps[1..]);
    }
  }

  /** At all times every queue and the whole service stay within their concurrency. */
  lemma ConcurrencyIsBounded(maxConcurrency: int32, steps: seq<Step>)
    requires maxConcurrency >= 1
    ensures var s := Exec(Init(maxConcurrency), steps);
            && s.maxConcurrency == maxConcurrency
            && Allocated(s.queues) <= maxConcurrency
            && |BusyWorkers(s)| <= maxConcurrency
            && forall q :: q in s.queues ==> 1 <= s.queues[q].concurrency && |BusyIn(s, q)| <= s.queues[q].concurrency
  {
    InitInv(maxConcurrency);
    ExecInv(Init(maxConcurrency), steps);
    MaxConcurrencyIsFixed(Init(maxConcurrency), steps);
    BusyIsBounded(Exec(Init(maxConcurrency), steps));
  }

  lemma BusyIsBounded(s: State)
    requires Inv(s)
    ensures |BusyWorkers(s)| <= s.maxConcurrency
    ensures forall q :: q in s.queues ==> |BusyIn(s, q)| <= s.queues[q].concurrency
  {
    SubsetSize(BusyWorkers(s), s.workers.Keys);
    assert |s.workers| == |s.workers.Keys|;
    forall q | q in s.queues ensures |BusyIn(s, q)| <= s.queues[q].concurrency {
      WorkerIdCount(q, s.queues[q].concurrency);
      SubsetSize(BusyIn(s, q), WorkerIds(q, s.queues[q].concurrency));
    }
  }
}
