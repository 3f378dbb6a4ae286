/** What each step writes, column by column, and what becomes of it in every later run. */
module TaskQueueEffects {
  import opened Words
  import opened Backoff
  import opened TaskQueue
  import opened TaskQueueSafety
  import opened TaskQueueRuns

  // ----- The API calls -----

  ghost predicate SameService(s: State, s': State) {
    && s'.maxConcurrency == s.maxConcurrency && s'.queues == s.queues && s'.workers == s.workers
    && s'.cancelled == s.cancelled && s'.dbOpen == s.dbOpen
  }

  lemma EnqueueWrites(s: State, queue: string, id: TaskId, payload: Payload, now: int)
    ensures var s' := Apply(s, Enqueue(queue, id, payload, now));
            if s.dbOpen && queue in s.queues && |payload| <= 1_048_576 && id !in s.tasks then
              && SameService(s, s') && s'.tasks.Keys == s.tasks.Keys + {id}
              && s'.tasks[id] == Task(queue := queue, payload := payload, status := Pending, attempt := 0,
                                      maxRetries := s.queues[queue].maxRetries,
                                      nextRunAt := now, createdAt := now, updatedAt := now, message := "")
              && forall o :: o in s.tasks ==> s'.tasks[o] == s.tasks[o]
            else s' == s
  {
  }

  lemma CancelWrites(s: State, id: TaskId, now: int)
    ensures var s' := Apply(s, Cancel(id, now));
            && SameService(s, s') && s'.tasks.Keys == s.tasks.Keys
            && forall o :: o in s.tasks ==>
                             s'.tasks[o] == if s.dbOpen && o == id && s.tasks[o].status.Pending?
                                            then s.tasks[o].(status := Cancelled, updatedAt := now) else s.tasks[o]
  {
  }

  lemma ClearQueueWrites(s: State, queue: string, now: int)
    ensures var s' := Apply(s, ClearQueue(queue, now));
            && SameService(s, s') && s'.tasks.Keys == s.tasks.Keys
            && forall o :: o in s.tasks ==>
                             s'.tasks[o] == if s.dbOpen && queue in s.queues && s.tasks[o].queue == queue && s.tasks[o].status.Pending?
                                            then s.tasks[o].(status := Cancelled, updatedAt := now) else s.tasks[o]
  {
  }

  predicate QueueAccepted(s: State, name: string, inUse: int) {
    s.dbOpen && 1 <= |name| <= 128 && name !in s.queues && inUse < s.maxConcurrency
  }

  /** Rows of the queue still running from before are due again, with their attempts; nothing else in the table changes. */
  lemma CreateQueueWrites(s: State, name: string, config: QueueConfig, now: int)
    ensures var s' := Apply(s, CreateQueue(name, config, now));
            if QueueAccepted(s, name, Allocated(s.queues)) then
              && s'.tasks.Keys == s.tasks.Keys
              && forall o :: o in s.tasks ==>
                               s'.tasks[o] == if s.tasks[o].queue == name && s.tasks[o].status.Running?
                                              then s.tasks[o].(status := Pending, updatedAt := now) else s.tasks[o]
            else s' == s
  {
  }

  /** The queue gets its defaults and what is left of the budget, and that many idle workers. */
  lemma CreateQueueStarts(s: State, name: string, config: QueueConfig, now: int)
    requires QueueAccepted(s, name, Allocated(s.queues))
    ensures var s' := Apply(s, CreateQueue(name, config, now));
            var c, left := WithDefaults(config), s.maxConcurrency - Allocated(s.queues);
            var count := if c.concurrency <= left then c.concurrency else left;
            && s'.queues == s.queues[name := c.(concurrency := count)]
            && (forall w :: w in s'.workers <==> w in s.workers || (w.queue == name && w.index < count))
            && (forall w :: w in s'.workers ==>
                              s'.workers[w] == if w.queue == name && w.index < count then Idle else s.workers[w])
            && s'.maxConcurrency == s.maxConcurrency && s'.cancelled == s.cancelled && s'.dbOpen == s.dbOpen
  {
  }

  // ----- The workers -----

  /** The worker is told the row's id, payload, retries and the attempt this is. */
  lemma DequeueWrites(s: State, w: WorkerId, id: TaskId, now: int)
    requires CanDequeue(s, w, id, now)
    ensures var s', t := Apply(s, Dequeue(w, id, now)), s.tasks[id];
            && s'.tasks == s.tasks[id := t.(status := Running, attempt := t.attempt + 1, updatedAt := now)]
            && s'.workers == (if t.attempt + 1 > 0x7fff_ffff then s.workers
                              else s.workers[w := Busy(Claim(id := id, payload := t.payload, attempt := t.attempt + 1,
                                                             maxRetries := t.maxRetries))])
            && SameService(s, s'.(workers := s.workers))
    ensures var s', t := Apply(s, DequeueLost(w, id, now)), s.tasks[id];
            s'.tasks == s.tasks[id := t.(status := Running, attempt := t.attempt + 1, updatedAt := now)] && SameService(s, s')
  {
  }

  predicate IsDue(t: Task, queue: string, now: int) {
    t.queue == queue && t.status.Pending? && t.nextRunAt <= now
  }

  /** By the time they are due, and by the time they were made. */
  predicate ComesFirst(t: Task, u: Task) {
    if t.nextRunAt == u.nextRunAt then t.createdAt <= u.createdAt else t.nextRunAt < u.nextRunAt
  }

  /** What an idle worker can take: exactly a due row of its queue that comes first among those that are due. */
  lemma DequeueTakesTheFirstDue(s: State, w: WorkerId, id: TaskId, now: int)
    requires Inv(s)
    ensures CanDequeue(s, w, id, now) <==>
            && s.dbOpen && !s.cancelled && w in s.workers && s.workers[w].Idle?
            && id in s.tasks && IsDue(s.tasks[id], w.queue, now)
            && forall o :: o in s.tasks && IsDue(s.tasks[o], w.queue, now) ==> ComesFirst(s.tasks[id], s.tasks[o])
    ensures !CanDequeue(s, w, id, now) ==> Apply(s, Dequeue(w, id, now)) == s && Apply(s, DequeueLost(w, id, now)) == s
  {
    assert forall o :: o in s.tasks ==> (IsDue(s.tasks[o], w.queue, now) <==> Due(s.tasks[o], w.queue, now));
    assert forall t, u :: ComesFirst(t, u) <==> NotLater(t, u);
  }

  lemma CompleteWrites(s: State, w: WorkerId, message: string, now: int)
    requires Inv(s) && Holds(s, w) && s.dbOpen && !s.cancelled
    ensures var s', id := Apply(s, Complete(w, message, now)), s.workers[w].claim.id;
            && id in s.tasks
            && s'.tasks == s.tasks[id := s.tasks[id].(status := Completed, message := message, updatedAt := now)]
            && s'.workers == s.workers[w := Idle] && SameService(s, s'.(workers := s.workers))
  {
    HeldClaim(s, w);
  }

  /** A write that is lost leaves the row as it is, and the worker goes on to the next. */
  lemma LostWriteKeepsRows(s: State, w: WorkerId)
    requires Holds(s, w)
    ensures var s' := Apply(s, WriteLost(w));
            s'.tasks == s.tasks && s'.workers == s.workers[w := Idle] && SameService(s, s'.(workers := s.workers))
  {
  }

  /** Failed for good after the last retry; otherwise due again after the backoff, which doubles with every attempt. */
  lemma FailWrites(s: State, w: WorkerId, message: string, now: int)
    requires Inv(s) && Holds(s, w) && s.dbOpen && !s.cancelled
    ensures var s', c := Apply(s, Fail(w, message, now)), s.workers[w].claim;
            && c.id in s.tasks && w.queue in s.queues
            && s'.workers == s.workers[w := Idle] && SameService(s, s'.(workers := s.workers))
            && (c.attempt > c.maxRetries ==>
                  s'.tasks == s.tasks[c.id := s.tasks[c.id].(status := Failed, message := message, updatedAt := now)])
            && (c.attempt <= c.maxRetries ==>
                  exists delay ::
                    && IsBackoff(s.queues[w.queue].backoffMs, c.attempt, delay)
                    && s'.tasks == s.tasks[c.id := s.tasks[c.id].(status := Pending, nextRunAt := now + delay, updatedAt := now)])
  {
    HeldClaim(s, w);
    var c := s.workers[w].claim;
    var backoffMs := s.queues[w.queue].backoffMs;
    BackoffIs(backoffMs, c.attempt);
    assert IsBackoff(backoffMs, c.attempt, RetryBackoff(backoffMs, c.attempt));
  }

  /** backoffMs * 2^(attempt - 1) but at most an hour, unless the shift leaves only small low bits. */
  ghost predicate IsBackoff(backoffMs: int64, attempt: Attempt, delay: int) {
    delay == if WrapsToSmall(backoffMs, attempt) then (backoffMs % Pow2(65 - attempt)) * Pow2(attempt - 1)
             else Min(backoffMs * Pow2(attempt - 1), 3_600_000)
  }

  lemma BackoffIs(backoffMs: int64, attempt: Attempt)
    requires backoffMs >= 1
    ensures IsBackoff(backoffMs, attempt, RetryBackoff(backoffMs, attempt))
  {
    RetryBackoffExact(backoffMs, attempt);
    if WrapsToSmall(backoffMs, attempt) {
      WrappedBackoff(backoffMs, attempt);
    }
  }

  /** The interrupted attempt does not count. */
  lemma RevertWrites(s: State, w: WorkerId, now: int)
    requires Inv(s) && Holds(s, w) && s.cancelled
    ensures var s', id := Apply(s, Revert(w, now)), s.workers[w].claim.id;
            && s'.workers == s.workers[w := Idle] && SameService(s, s'.(workers := s.workers))
            && if s.dbOpen then
                 && id in s.tasks && s.tasks[id].attempt >= 1
                 && s'.tasks == s.tasks[id := s.tasks[id].(status := Pending, attempt := s.tasks[id].attempt - 1, updatedAt := now)]
               else s'.tasks == s.tasks
  {
    HeldClaim(s, w);
  }

  // ----- The service -----

  lemma CleanupRemoves(s: State, queue: string, now: int)
    ensures var s' := Apply(s, Cleanup(queue, now));
            && SameService(s, s')
            && (forall o :: o in s'.tasks ==> o in s.tasks && s'.tasks[o] == s.tasks[o])
            && forall o :: o in s.tasks ==>
                             (o !in s'.tasks <==>
                              && s.dbOpen && !s.cancelled && queue in s.queues && s.tasks[o].queue == queue
                              && !s.tasks[o].status.Pending? && !s.tasks[o].status.Running?
                              && s.tasks[o].updatedAt + s.queues[queue].retentionMs < now)
  {
  }

  /** Closing hands every running row back, attempts kept, whichever queue it is of. */
  lemma CloseWrites(s: State, now: int)
    requires s.cancelled && s.dbOpen
    ensures var s' := Apply(s, CloseDb(now));
            && SameService(s.(dbOpen := false), s') && s'.tasks.Keys == s.tasks.Keys
            && forall o :: o in s.tasks ==>
                             s'.tasks[o] == if s.tasks[o].status.Running? then s.tasks[o].(status := Pending, updatedAt := now)
                                            else s.tasks[o]
  {
  }

  /** A restart keeps the table, and nothing else. */
  lemma RestartKeepsTheTable(s: State)
    ensures var s' := Apply(s, Restart);
            && s'.tasks == s.tasks && s'.queues == map[] && s'.workers == map[] && s'.dbOpen && !s'.cancelled
            && s'.maxConcurrency == s.maxConcurrency
  {
  }

  /** The history counts what happened to each row: dequeues, reverts, and recoveries at a CreateQueue or a Close. */
  lemma HistoryCounts(s: State, e: Step, id: TaskId)
    requires Inv(s) && id in s.tasks && id in Apply(s, e).tasks
    requires e.CreateQueue? || e.CloseDb?
    ensures id in s.history && id in Apply(s, e).history
    ensures var h, h' := s.history[id], Apply(s, e).history[id];
            h' == h.(resets := h.resets + if Apply(s, e).tasks[id].status != s.tasks[id].status then 1 else 0)
  {
  }

  // ----- Later runs -----

  /** The result of a completed task is kept for as long as its row exists. */
  lemma ResultIsKept(s: State, w: WorkerId, message: string, now: int, steps: seq<Step>)
    requires Inv(s) && Holds(s, w) && s.dbOpen && !s.cancelled
    requires PresentThroughout(Apply(s, Complete(w, message, now)), steps, s.workers[w].claim.id)
    ensures var id := s.workers[w].claim.id;
            && id in s.tasks && id in Exec(Apply(s, Complete(w, message, now)), steps).tasks
            && Exec(Apply(s, Complete(w, message, now)), steps).tasks[id]
               == s.tasks[id].(status := Completed, message := message, updatedAt := now)
  {
    CompleteWrites(s, w, message, now);
    InvStep(s, Complete(w, message, now));
    TerminalRowsAreFinal(Apply(s, Complete(w, message, now)), steps, s.workers[w].claim.id);
  }

  /** What identifies a task: its queue, payload, retries and the time it was made. */
  predicate SameTask(t: Task, u: Task) {
    u.queue == t.queue && u.payload == t.payload && u.maxRetries == t.maxRetries && u.createdAt == t.createdAt
  }

  lemma {:induction false} TasksStayTheSame(s: State, steps: seq<Step>, id: TaskId)
    requires Inv(s) && PresentThroughout(s, steps, id)
    ensures id in Exec(s, steps).tasks && SameTask(s.tasks[id], Exec(s, steps).tasks[id])
    decreases |steps|
  {
    if steps != [] {
      InvStep(s, steps[0]);
      RowChangesAreLegal(s, steps[0], id);
      TasksStayTheSame(Apply(s, steps[0]), steps[1..], id);
    }
  }

  /** Whatever happens between, a worker that holds a task was given the very payload that was enqueued, on its queue. */
  lemma PayloadIsDelivered(s: State, queue: string, id: TaskId, payload: Payload, now: int, steps: seq<Step>, w: WorkerId)
    requires Inv(s) && s.dbOpen && queue in s.queues && |payload| <= MAX_PAYLOAD_SIZE && id !in s.tasks
    requires PresentThroughout(Apply(s, Enqueue(queue, id, payload, now)), steps, id)
    ensures var s' := Exec(Apply(s, Enqueue(queue, id, payload, now)), steps);
            s'.dbOpen && Holds(s', w) && s'.workers[w].claim.id == id ==>
              s'.workers[w].claim.payload == payload && s'.workers[w].claim.maxRetries == s.queues[queue].maxRetries && w.queue == queue
  {
    var first := Apply(s, Enqueue(queue, id, payload, now));
    EnqueueWrites(s, queue, id, payload, now);
    InvStep(s, Enqueue(queue, id, payload, now));
    TasksStayTheSame(first, steps, id);
    ExecInv(first, steps);
    var s' := Exec(first, steps);
    if s'.dbOpen && Holds(s', w) {
      HeldClaim(s', w);
    }
  }

  /** The step reads a clock before that time if it dequeues. */
  predicate DequeuesBefore(e: Step, time: int) {
    e.Dequeue? || e.DequeueLost? ==> e.now < time
  }

  predicate WaitsOrCancelled(t: Task, u: Task) {
    u == t || (u.status.Cancelled? && u == t.(status := Cancelled, updatedAt := u.updatedAt))
  }

  lemma WaitingStep(s: State, e: Step, id: TaskId)
    requires Inv(s) && id in s.tasks && s.tasks[id].status.Pending? && DequeuesBefore(e, s.tasks[id].nextRunAt)
    ensures id in Apply(s, e).tasks && WaitsOrCancelled(s.tasks[id], Apply(s, e).tasks[id])
  {
    if e.Dequeue? || e.DequeueLost? {
      assert CanDequeue(s, e.worker, e.id, e.now) ==> e.id != id;
    } else {
      RowChangesAreLegal(s, e, id);
      OnlyDequeuesTake(s, e, id);
    }
  }

  lemma OnlyDequeuesTake(s: State, e: Step, id: TaskId)
    requires Inv(s) && id in s.tasks && s.tasks[id].status.Pending? && !e.Dequeue? && !e.DequeueLost?
    ensures id in Apply(s, e).tasks && !Apply(s, e).tasks[id].status.Running?
  {
    if IsWorkers(e) {
      WritersSkipPendingRows(s, e, id);
    }
  }

  lemma WritersSkipPendingRows(s: State, e: Step, id: TaskId)
    requires Inv(s) && id in s.tasks && s.tasks[id].status.Pending?
    requires e.Revert? || e.Complete? || e.Fail? || e.WriteLost?
    ensures id in Apply(s, e).tasks && Apply(s, e).tasks[id] == s.tasks[id]
  {
    if Holds(s, e.worker) && s.dbOpen {
      assert ClaimMatches(s.tasks, e.worker.queue, s.workers[e.worker].claim);
    }
  }

  /** A pending row waits for its time: until a dequeue reads a clock that late, it can only be cancelled. */
  lemma {:induction false} PendingRowsWait(s: State, steps: seq<Step>, id: TaskId)
    requires Inv(s) && PresentThroughout(s, steps, id) && s.tasks[id].status.Pending?
    requires forall i :: 0 <= i < |steps| ==> DequeuesBefore(steps[i], s.tasks[id].nextRunAt)
    ensures id in Exec(s, steps).tasks && WaitsOrCancelled(s.tasks[id], Exec(s, steps).tasks[id])
    decreases |steps|
  {
    if steps != [] {
      var next := Apply(s, steps[0]);
      InvStep(s, steps[0]);
      WaitingStep(s, steps[0], id);
      if next.tasks[id].status.Pending? {
        PendingRowsWait(next, steps[1..], id);
      } else {
        TerminalRowsAreFinal(next, steps[1..], id);
      }
    }
  }

  /** A task that failed with retries left is not taken again before its backoff has passed. */
  lemma RetriesWait(s: State, w: WorkerId, message: string, now: int, delay: int, steps: seq<Step>)
    requires Inv(s) && Holds(s, w) && s.dbOpen && !s.cancelled
    requires s.workers[w].claim.attempt <= s.workers[w].claim.maxRetries
    requires w.queue in s.queues && IsBackoff(s.queues[w.queue].backoffMs, s.workers[w].claim.attempt, delay)
    requires PresentThroughout(Apply(s, Fail(w, message, now)), steps, s.workers[w].claim.id)
    requires forall i :: 0 <= i < |steps| ==> DequeuesBefore(steps[i], now + delay)
    ensures var id := s.workers[w].claim.id;
            var s' := Exec(Apply(s, Fail(w, message, now)), steps);
            id in s'.tasks && id in s.tasks && (s'.tasks[id].status.Pending? || s'.tasks[id].status.Cancelled?)
            && s'.tasks[id].attempt == s.tasks[id].attempt && s'.tasks[id].nextRunAt == now + delay
  {
    FailWrites(s, w, message, now);
    InvStep(s, Fail(w, message, now));
    PendingRowsWait(Apply(s, Fail(w, message, now)), steps, s.workers[w].claim.id);
  }
}
