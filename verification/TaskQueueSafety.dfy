/** What every step of the task queue keeps. */
module TaskQueueSafety {
  import opened TaskQueue
  import MapSums

  // ----- Frames: what each part of the invariant depends on -----

  lemma BudgetFrame(s: State, s': State)
    requires BudgetOk(s) && WorkersOk(s)
    requires s'.queues == s.queues && s'.maxConcurrency == s.maxConcurrency && s'.workers.Keys == s.workers.Keys
    ensures BudgetOk(s') && WorkersOk(s')
  {
    assert |s.workers| == |s.workers.Keys| && |s'.workers| == |s'.workers.Keys|;
  }

  /** No worker gains a claim, and every row still claimed is untouched. */
  ghost predicate ClaimsKept(s: State, s': State) {
    && (s'.dbOpen ==> s.dbOpen)
    && forall w :: Holds(s', w) ==>
                     && Holds(s, w) && s'.workers[w].claim == s.workers[w].claim
                     && (s'.dbOpen ==> var id := s.workers[w].claim.id;
                                       id in s'.tasks && id in s.tasks && s'.tasks[id] == s.tasks[id])
  }

  lemma ClaimsFrame(s: State, s': State)
    requires ClaimsOk(s) && Exclusive(s) && ClaimsKept(s, s')
    ensures ClaimsOk(s') && Exclusive(s')
  {
    forall v, w | Holds(s', v) && Holds(s', w) && v != w
      ensures s'.workers[v].claim.id != s'.workers[w].claim.id
    {
      assert Holds(s, v) && Holds(s, w);
    }
  }

  /** Changing one row: the table invariant and the potential. */
  lemma OneRow(tasks: map<TaskId, Task>, id: TaskId, t: Task)
    ensures Potential(tasks[id := t]) == Potential(tasks) - (if id in tasks then Weight(tasks[id]) else 0) + Weight(t)
  {
    MapSums.SumUpdate(Weights(tasks), id, Weight(t));
    assert Weights(tasks[id := t]) == Weights(tasks)[id := Weight(t)];
  }

  /** Changing statuses in bulk: no row gains weight except the `bump` rows, by one at most. */
  lemma ManyRows(tasks: map<TaskId, Task>, tasks': map<TaskId, Task>, bump: set<TaskId>)
    requires tasks.Keys == tasks'.Keys
    requires forall id :: id in tasks ==> Weight(tasks'[id]) <= Weight(tasks[id]) + (if id in bump then 1 else 0)
    ensures Potential(tasks') <= Potential(tasks) + |bump|
  {
    MapSums.SumBump(Weights(tasks), Weights(tasks'), bump);
  }

  // ----- Each step keeps the invariant -----

  lemma WorkerIdCount(queue: string, n: nat)
    ensures |WorkerIds(queue, n)| == n
  {
    if n != 0 {
      WorkerIdCount(queue, n - 1);
      assert WorkerIds(queue, n) == WorkerIds(queue, n - 1) + {WorkerId(queue, n - 1)};
    } else {
      assert WorkerIds(queue, n) == {};
    }
  }

  lemma AllocatedAfterAdd(queues: map<string, QueueConfig>, name: string, c: QueueConfig)
    requires name !in queues
    ensures Allocated(queues[name := c]) == Allocated(queues) + c.concurrency
  {
    MapSums.SumUpdate(Concurrencies(queues), name, c.concurrency);
    assert Concurrencies(queues[name := c]) == Concurrencies(queues)[name := c.concurrency];
  }

  /** Resetting running rows that no worker holds, or while closing the database. */
  lemma ResetStep(s: State, ids: set<TaskId>, now: int)
    requires Inv(s)
    requires forall id :: id in ids ==> id in s.tasks && s.tasks[id].status.Running?
    ensures RowsOk(Reset(s, ids, now)) && LedgerOk(Reset(s, ids, now))
  {
    ManyRows(s.tasks, WithStatus(s.tasks, ids, Pending, now), ids);
  }

  lemma SpawnedWorkers(s: State, name: string, c: QueueConfig)
    requires BudgetOk(s) && WorkersOk(s) && name !in s.queues && c.concurrency >= 0
    ensures var workers := s.workers + Spawned(name, c.concurrency);
            && |workers| == Allocated(s.queues[name := c])
            && forall w :: w in workers ==> w.queue in s.queues[name := c] && w.index < s.queues[name := c][w.queue].concurrency
  {
    var spawned := Spawned(name, c.concurrency);
    var workers := s.workers + spawned;
    AllocatedAfterAdd(s.queues, name, c);
    WorkerIdCount(name, c.concurrency);
    assert spawned.Keys == WorkerIds(name, c.concurrency);
    assert workers.Keys == s.workers.Keys + spawned.Keys;
    assert |workers| == |workers.Keys| && |s.workers| == |s.workers.Keys|;
  }

  lemma CreateQueueBudget(s: State, name: string, config: QueueConfig, now: int)
    requires BudgetOk(s) && WorkersOk(s) && !QueueRejected(s, name)
    ensures var s' := AfterCreateQueue(s, name, config, now); BudgetOk(s') && WorkersOk(s')
  {
    CreateQueueWorkers(s, name, config, now);
    BudgetAfterAdd(s, AfterCreateQueue(s, name, config, now), name, Clamped(s, config));
  }

  lemma BudgetAfterAdd(s: State, s': State, name: string, c: QueueConfig)
    requires BudgetOk(s) && name !in s.queues && s'.queues == s.queues[name := c] && s'.maxConcurrency == s.maxConcurrency
    requires 1 <= c.concurrency <= s.maxConcurrency - Allocated(s.queues) && c.backoffMs >= 1
    requires MIN_RETENTION_MS <= c.retentionMs <= MAX_RETENTION_MS
    ensures BudgetOk(s')
  {
    AllocatedAfterAdd(s.queues, name, c);
  }

  lemma CreateQueueWorkers(s: State, name: string, config: QueueConfig, now: int)
    requires BudgetOk(s) && WorkersOk(s) && !QueueRejected(s, name)
    ensures WorkersOk(AfterCreateQueue(s, name, config, now))
  {
    var c := Clamped(s, config);
    SpawnedWorkers(s, name, c);
    AllocatedAfterAdd(s.queues, name, c);
  }

  lemma CreateQueueClaims(s: State, name: string, config: QueueConfig, now: int)
    requires WorkersOk(s) && ClaimsOk(s) && Exclusive(s) && !QueueRejected(s, name)
    ensures var s' := AfterCreateQueue(s, name, config, now); ClaimsOk(s') && Exclusive(s')
  {
    var s' := AfterCreateQueue(s, name, config, now);
    forall w | Holds(s', w)
      ensures Holds(s, w) && s'.workers[w].claim == s.workers[w].claim
      ensures var id := s.workers[w].claim.id; id in s'.tasks && id in s.tasks && s'.tasks[id] == s.tasks[id]
    {
      assert w !in Spawned(name, s'.queues[name].concurrency);
      assert Holds(s, w);
    }
    ClaimsFrame(s, s');
  }

  lemma CreateQueueStep(s: State, name: string, config: QueueConfig, now: int)
    requires Inv(s)
    ensures Inv(AfterCreateQueue(s, name, config, now))
  {
    if !QueueRejected(s, name) {
      CreateQueueBudget(s, name, config, now);
      CreateQueueClaims(s, name, config, now);
      ResetStep(s, RunningIn(s.tasks, name), now);
    }
  }

  lemma EnqueueStep(s: State, queue: string, id: TaskId, payload: Payload, now: int)
    requires Inv(s)
    ensures Inv(AfterEnqueue(s, queue, id, payload, now))
  {
    if !EnqueueRejected(s, queue, id, payload) {
      var s' := AfterEnqueue(s, queue, id, payload, now);
      BudgetFrame(s, s');
      OneRow(s.tasks, id, s'.tasks[id]);
      assert ClaimsKept(s, s');
      ClaimsFrame(s, s');
    }
  }

  lemma CancelTable(s: State, ids: set<TaskId>, now: int)
    requires RowsOk(s) && LedgerOk(s)
    requires forall id :: id in ids ==> id in s.tasks && s.tasks[id].status.Pending?
    ensures var s' := s.(tasks := WithStatus(s.tasks, ids, Cancelled, now)); RowsOk(s') && LedgerOk(s')
  {
    ManyRows(s.tasks, WithStatus(s.tasks, ids, Cancelled, now), {});
  }

  /** Cancelling pending rows, one or many. */
  lemma CancelRows(s: State, ids: set<TaskId>, now: int)
    requires Inv(s)
    requires forall id :: id in ids ==> id in s.tasks && s.tasks[id].status.Pending?
    ensures Inv(s.(tasks := WithStatus(s.tasks, ids, Cancelled, now)))
  {
    var s' := s.(tasks := WithStatus(s.tasks, ids, Cancelled, now));
    CancelTable(s, ids, now);
    ClaimsFrame(s, s');
  }

  lemma CancelStep(s: State, id: TaskId, now: int)
    requires Inv(s)
    ensures Inv(AfterCancel(s, id, now))
  {
    if s.dbOpen && id in s.tasks && s.tasks[id].status.Pending? {
      CancelRows(s, {id}, now);
    }
  }

  lemma ClearQueueStep(s: State, queue: string, now: int)
    requires Inv(s)
    ensures Inv(AfterClearQueue(s, queue, now))
  {
    if s.dbOpen && queue in s.queues {
      CancelRows(s, PendingIn(s.tasks, queue), now);
    }
  }

  lemma TakenStep(s: State, w: WorkerId, id: TaskId, now: int)
    requires Inv(s) && CanDequeue(s, w, id, now)
    ensures Inv(Taken(s, id, now))
  {
    var s' := Taken(s, id, now);
    BudgetFrame(s, s');
    OneRow(s.tasks, id, s'.tasks[id]);
    assert ClaimsKept(s, s');
    ClaimsFrame(s, s');
  }

  lemma DequeueClaims(s: State, w: WorkerId, id: TaskId, now: int)
    requires ClaimsOk(s) && Exclusive(s) && CanDequeue(s, w, id, now)
    ensures ClaimsOk(AfterDequeue(s, w, id, now)) && Exclusive(AfterDequeue(s, w, id, now))
  {
    var s' := AfterDequeue(s, w, id, now);
    forall v | Holds(s', v) && v != w
      ensures Holds(s, v) && s'.workers[v].claim.id != id && s'.tasks[s'.workers[v].claim.id] == s.tasks[s'.workers[v].claim.id]
    {
      assert Holds(s, v);
    }
  }

  lemma DequeueStep(s: State, w: WorkerId, id: TaskId, now: int)
    requires Inv(s)
    ensures Inv(AfterDequeue(s, w, id, now))
  {
    if CanDequeue(s, w, id, now) {
      TakenStep(s, w, id, now);
      BudgetFrame(s, AfterDequeue(s, w, id, now));
      DequeueClaims(s, w, id, now);
    }
  }

  lemma ReleaseStep(s: State, w: WorkerId)
    requires Inv(s) && Holds(s, w)
    ensures Inv(Release(s, w))
  {
    BudgetFrame(s, Release(s, w));
    ClaimsFrame(s, Release(s, w));
  }

  /** A worker writes its own row and lets go of it. */
  lemma FinishStep(s: State, w: WorkerId, t: Task, h: History, ledger: Ledger)
    requires Inv(s) && Holds(s, w) && s.dbOpen
    requires RowOk(t, h)
    requires var row := s.tasks[s.workers[w].claim.id];
             Weight(t) - Weight(row) <= (ledger.enqueued + ledger.reverts + ledger.resets - ledger.dequeues)
                                        - (s.ledger.enqueued + s.ledger.reverts + s.ledger.resets - s.ledger.dequeues)
    ensures var id := s.workers[w].claim.id;
            Inv(Release(s, w).(tasks := s.tasks[id := t], history := s.history[id := h], ledger := ledger))
  {
    var id := s.workers[w].claim.id;
    var s' := Release(s, w).(tasks := s.tasks[id := t], history := s.history[id := h], ledger := ledger);
    BudgetFrame(s, s');
    OneRow(s.tasks, id, t);
    assert ClaimsKept(s, s');
    ClaimsFrame(s, s');
  }

  lemma RevertStep(s: State, w: WorkerId, now: int)
    requires Inv(s)
    ensures Inv(AfterRevert(s, w, now))
  {
    if Holds(s, w) && s.cancelled {
      if s.dbOpen {
        var id := s.workers[w].claim.id;
        var t, h := s.tasks[id], s.history[id];
        FinishStep(s, w, RevertedRow(t, now), h.(reverts := h.reverts + 1), s.ledger.(reverts := s.ledger.reverts + 1));
      } else {
        ReleaseStep(s, w);
      }
    }
  }

  lemma CompleteStep(s: State, w: WorkerId, message: string, now: int)
    requires Inv(s)
    ensures Inv(AfterComplete(s, w, message, now))
  {
    if Holds(s, w) && !s.cancelled && s.dbOpen {
      var id := s.workers[w].claim.id;
      FinishStep(s, w, CompletedRow(s.tasks[id], message, now), s.history[id], s.ledger);
      assert s.history[id := s.history[id]] == s.history;
    }
  }

  lemma FailStep(s: State, w: WorkerId, message: string, now: int)
    requires Inv(s)
    ensures Inv(AfterFail(s, w, message, now))
  {
    if Holds(s, w) && !s.cancelled && s.dbOpen {
      var c := s.workers[w].claim;
      var t := FailedRow(s.tasks[c.id], c, s.queues[w.queue].backoffMs, message, now);
      FinishStep(s, w, t, s.history[c.id], s.ledger);
      assert s.history[c.id := s.history[c.id]] == s.history;
    }
  }

  lemma CleanupTable(s: State, gone: set<TaskId>)
    requires RowsOk(s) && LedgerOk(s)
    ensures var s' := s.(tasks := s.tasks - gone, history := s.history - gone); RowsOk(s') && LedgerOk(s')
  {
    MapSums.SumSubMap(Weights(s.tasks), gone);
    assert Weights(s.tasks - gone) == Weights(s.tasks) - gone;
  }

  lemma CleanupStep(s: State, queue: string, now: int)
    requires Inv(s)
    ensures Inv(AfterCleanup(s, queue, now))
  {
    if s.dbOpen && !s.cancelled && queue in s.queues {
      var gone := set id | id in s.tasks && Expired(s.tasks[id], queue, s.queues[queue].retentionMs, now);
      CleanupTable(s, gone);
      ClaimsFrame(s, AfterCleanup(s, queue, now));
    }
  }

  lemma CloseDbStep(s: State, now: int)
    requires Inv(s)
    ensures Inv(AfterCloseDb(s, now))
  {
    if s.cancelled && s.dbOpen {
      var s' := AfterCloseDb(s, now);
      BudgetFrame(s, s');
      ResetStep(s, AllRunning(s.tasks), now);
      ClaimsFrame(s, s');
    }
  }

  lemma RestartStep(s: State)
    requires Inv(s)
    ensures Inv(AfterRestart(s))
  {
    assert Concurrencies(map[]) == map[];
  }

  lemma DequeueLostStep(s: State, w: WorkerId, id: TaskId, now: int)
    requires Inv(s)
    ensures Inv(AfterDequeueLost(s, w, id, now))
  {
    if CanDequeue(s, w, id, now) {
      TakenStep(s, w, id, now);
    }
  }

  lemma WriteLostStep(s: State, w: WorkerId)
    requires Inv(s)
    ensures Inv(AfterWriteLost(s, w))
  {
    if Holds(s, w) {
      ReleaseStep(s, w);
    }
  }

  lemma CancelContextStep(s: State)
    requires Inv(s)
    ensures Inv(s.(cancelled := true))
  {
    BudgetFrame(s, s.(cancelled := true));
    ClaimsFrame(s, s.(cancelled := true));
  }

  /** A step of a worker. */
  predicate IsWorkers(e: Step) {
    e.Dequeue? || e.DequeueLost? || e.Revert? || e.Complete? || e.Fail? || e.WriteLost?
  }

  lemma TakingStep(s: State, e: Step)
    requires Inv(s) && (e.Dequeue? || e.DequeueLost?)
    ensures Inv(Apply(s, e))
  {
    match e
    case Dequeue(w, id, now) => DequeueStep(s, w, id, now);
    case DequeueLost(w, id, now) => DequeueLostStep(s, w, id, now);
  }

  lemma ReleasingStep(s: State, e: Step)
    requires Inv(s) && (e.Revert? || e.WriteLost?)
    ensures Inv(Apply(s, e))
  {
    match e
    case Revert(w, now) => RevertStep(s, w, now);
    case WriteLost(w) => WriteLostStep(s, w);
  }

  lemma WritingStep(s: State, e: Step)
    requires Inv(s) && (e.Complete? || e.Fail?)
    ensures Inv(Apply(s, e))
  {
    match e
    case Complete(w, message, now) => CompleteStep(s, w, message, now);
    case Fail(w, message, now) => FailStep(s, w, message, now);
  }

  /** A call of the plugin. */
  predicate IsCall(e: Step) {
    e.CreateQueue? || e.Enqueue? || e.Cancel? || e.ClearQueue?
  }

  lemma CallsStep(s: State, e: Step)
    requires Inv(s) && IsCall(e)
    ensures Inv(Apply(s, e))
  {
    match e
    case CreateQueue(name, config, now) => CreateQueueStep(s, name, config, now);
    case Enqueue(queue, id, payload, now) => EnqueueStep(s, queue, id, payload, now);
    case Cancel(id, now) => CancelStep(s, id, now);
    case ClearQueue(queue, now) => ClearQueueStep(s, queue, now);
  }

  /** What the service does of its own accord. */
  lemma ServiceStep(s: State, e: Step)
    requires Inv(s) && !IsWorkers(e) && !IsCall(e)
    ensures Inv(Apply(s, e))
  {
    match e
    case Cleanup(queue, now) => CleanupStep(s, queue, now);
    case CancelContext => CancelContextStep(s);
    case CloseDb(now) => CloseDbStep(s, now);
    case Restart => RestartStep(s);
  }

  /** Every step keeps the invariant, in every state that has it. */
  lemma InvStep(s: State, e: Step)
    requires Inv(s)
    ensures Inv(Apply(s, e))
  {
    if e.Dequeue? || e.DequeueLost? {
      TakingStep(s, e);
    } else if e.Revert? || e.WriteLost? {
      ReleasingStep(s, e);
    } else if e.Complete? || e.Fail? {
      WritingStep(s, e);
    } else if IsCall(e) {
      CallsStep(s, e);
    } else {
      ServiceStep(s, e);
    }
  }
}
