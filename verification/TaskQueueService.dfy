/** The service object: the same operations as methods over its fields, each proved to be its step. */
module TaskQueueService {
  import opened Wrappers
  import opened Words
  import opened Backoff
  import opened TaskQueue
  import opened TaskQueueSafety
  import TaskQueueRuns
  import MapSums

  /** How a callback ends: the context was cancelled meanwhile, or the plugin returned. */
  datatype Outcome = Interrupted | Succeeded | Errored

  datatype CancelResult = CancelledNow | NotFound | NotPending(status: Status) | DbClosed

  class Service {
    const maxConcurrency: int32
    var queues: map<string, QueueConfig>
    var tasks: map<TaskId, Task>
    var workers: map<WorkerId, Worker>
    var cancelled: bool
    var dbOpen: bool
    ghost var history: map<TaskId, History>
    ghost var ledger: Ledger

    ghost function View(): State
      reads this
    {
      State(maxConcurrency, queues, tasks, workers, cancelled, dbOpen, history, ledger)
    }

    ghost predicate Valid()
      reads this
    {
      Inv(View())
    }

    constructor (maxConcurrency: int32)
      requires maxConcurrency >= 1
      ensures View() == Init(maxConcurrency)
      ensures Valid()
    {
      this.maxConcurrency := maxConcurrency;
      queues, tasks, workers := map[], map[], map[];
      cancelled, dbOpen := false, true;
      history, ledger := map[], Ledger(0, 0, 0, 0);
      new;
      TaskQueueRuns.InitInv(maxConcurrency);
    }

    /** Adds up the concurrency of the existing queues, in whatever order the map yields them. */
    method SumAllocated() returns (inUse: int)
      ensures inUse == Allocated(queues)
    {
      inUse := 0;
      var left := queues.Keys;
      assert Shares(left) == map q | q in queues :: queues[q].concurrency;
      while left != {}
        invariant left <= queues.Keys
        invariant inUse + MapSums.Sum(Shares(left)) == Allocated(queues)
        decreases left
      {
        var q :| q in left;
        MapSums.SumRemove(Shares(left), q);
        assert Shares(left) - {q} == Shares(left - {q});
        inUse := inUse + queues[q].concurrency;
        left := left - {q};
      }
      assert Shares(left) == map[];
    }

    ghost function Shares(names: set<string>): map<string, int>
      reads this
    {
      map q | q in names && q in queues :: queues[q].concurrency
    }

    /** Reduces the requested concurrency to what is left of the budget; None when nothing is left. */
    method ClampConcurrency(config: QueueConfig) returns (r: Result<QueueConfig>)
      requires config.concurrency >= 1
      ensures r.Ok? <==> Allocated(queues) < maxConcurrency
      ensures r.Ok? ==> r.value == config.(concurrency := Min(config.concurrency, maxConcurrency - Allocated(queues)))
    {
      var inUse := SumAllocated();
      var available := maxConcurrency - inUse;
      if available <= 0 {
        return Err("concurrency budget exhausted");
      }
      var c := config;
      if c.concurrency > available {
        c := c.(concurrency := available);
      }
      return Ok(c);
    }

    method CreateQueue(name: string, config: QueueConfig, now: int) returns (r: Result<()>)
      requires Valid()
      modifies this
      ensures View() == AfterCreateQueue(old(View()), name, config, now)
      ensures Valid()
      ensures r.Err? <==> QueueRejected(old(View()), name)
    {
      CreateQueueStep(View(), name, config, now);
      var clamped := CheckQueue(name, config);
      if clamped.Err? {
        return Err(clamped.message);
      }
      InstallQueue(name, clamped.value, now);
      return Ok(());
    }

    /** Every check CreateQueue makes before it writes, in its order. */
    method CheckQueue(name: string, config: QueueConfig) returns (r: Result<QueueConfig>)
      ensures r.Err? <==> QueueRejected(View(), name)
      ensures r.Ok? ==> r.value == Clamped(View(), config)
    {
      if |name| == 0 {
        return Err("queue name cannot be empty");
      }
      if |name| > MAX_QUEUE_NAME_LENGTH {
        return Err("queue name too long");
      }
      r := ClampConcurrency(WithDefaults(config));
      if r.Ok? && name in queues {
        return Err("queue already exists");
      }
      if r.Ok? && !dbOpen {
        return Err("creating queue");
      }
    }

    method InstallQueue(name: string, c: QueueConfig, now: int)
      requires c.concurrency >= 0
      modifies this
      ensures View() == Reset(old(View()), RunningIn(old(tasks), name), now).(
                          queues := old(queues)[name := c], workers := old(workers) + Spawned(name, c.concurrency))
    {
      HandBack(RunningIn(tasks, name), now);
      queues := queues[name := c];
      SpawnWorkers(name, c.concurrency);
    }

    /** UPDATE tasks SET status = 'pending' over rows left running. */
    method HandBack(ids: set<TaskId>, now: int)
      modifies this`tasks, this`history, this`ledger
      ensures View() == Reset(old(View()), ids, now)
    {
      tasks := WithStatus(tasks, ids, Pending, now);
      history := Reset(old(View()), ids, now).history;
      ledger := ledger.(resets := ledger.resets + |ids|);
    }

    /** One goroutine per unit of concurrency. */
    method SpawnWorkers(queue: string, concurrency: int)
      requires concurrency >= 0
      modifies this`workers
      ensures workers == old(workers) + Spawned(queue, concurrency)
    {
      var i := 0;
      while i < concurrency
        invariant 0 <= i <= concurrency
        invariant workers == old(workers) + Spawned(queue, i)
      {
        workers := workers[WorkerId(queue, i) := Idle];
        i := i + 1;
      }
    }

    method Enqueue(queue: string, id: TaskId, payload: Payload, now: int) returns (r: Result<TaskId>)
      requires Valid()
      modifies this
      ensures View() == AfterEnqueue(old(View()), queue, id, payload, now)
      ensures Valid()
      ensures r.Ok? <==> !EnqueueRejected(old(View()), queue, id, payload)
      ensures r.Ok? ==> r.value == id && id !in old(tasks) && id in tasks && tasks[id].status.Pending?
    {
      if queue !in queues {
        return Err("queue does not exist");
      }
      if |payload| > MAX_PAYLOAD_SIZE {
        return Err("payload too large");
      }
      if !dbOpen || id in tasks {
        return Err("enqueuing task");
      }
      EnqueueStep(View(), queue, id, payload, now);
      var t := NewTask(queue, payload, queues[queue].maxRetries, now);
      tasks := tasks[id := t];
      history := history[id := History(0, 0, 0)];
      ledger := ledger.(enqueued := ledger.enqueued + Weight(t));
      return Ok(id);
    }

    method Cancel(id: TaskId, now: int) returns (r: CancelResult)
      requires Valid()
      modifies this
      ensures View() == AfterCancel(old(View()), id, now)
      ensures Valid()
      ensures r == if !dbOpen then DbClosed
                   else if id !in old(tasks) then NotFound
                   else if old(tasks)[id].status.Pending? then CancelledNow
                   else NotPending(old(tasks)[id].status)
    {
      CancelStep(View(), id, now);
      if !dbOpen {
        return DbClosed;
      }
      if id in tasks && tasks[id].status.Pending? {
        tasks := WithStatus(tasks, {id}, Cancelled, now);
        return CancelledNow;
      }
      if id !in tasks {
        return NotFound;
      }
      return NotPending(tasks[id].status);
    }

    method ClearQueue(queue: string, now: int) returns (r: Result<nat>)
      requires Valid()
      modifies this
      ensures View() == AfterClearQueue(old(View()), queue, now)
      ensures Valid()
      ensures r.Ok? <==> queue in queues && dbOpen
      ensures r.Ok? ==> r.value == |PendingIn(old(tasks), queue)| && PendingIn(tasks, queue) == {}
    {
      ClearQueueStep(View(), queue, now);
      if queue !in queues {
        return Err("queue does not exist");
      }
      if !dbOpen {
        return Err("clearing queue");
      }
      var pending := PendingIn(tasks, queue);
      tasks := WithStatus(tasks, pending, Cancelled, now);
      return Ok(|pending|);
    }

    /** The subquery of the dequeue: the first due row of the queue, if there is one. */
    method SelectNext(queue: string, now: int) returns (found: bool, id: TaskId)
      ensures found ==> IsNext(tasks, queue, now, id)
      ensures !found ==> forall o :: o in tasks ==> !Due(tasks[o], queue, now)
    {
      found, id := false, "";
      var left := tasks.Keys;
      while left != {}
        invariant left <= tasks.Keys
        invariant found ==> id in tasks && Due(tasks[id], queue, now)
        invariant forall o :: o in tasks && o !in left && Due(tasks[o], queue, now) ==>
                                found && NotLater(tasks[id], tasks[o])
        decreases left
      {
        var o :| o in left;
        left := left - {o};
        if Due(tasks[o], queue, now) && (!found || !NotLater(tasks[id], tasks[o])) {
          found, id := true, o;
        }
      }
    }

    method Dequeue(w: WorkerId, now: int) returns (found: bool)
      requires Valid() && w in workers && workers[w].Idle?
      modifies this
      ensures Valid()
      ensures found ==> Holds(View(), w)
      ensures found ==> var id := workers[w].claim.id;
                        && CanDequeue(old(View()), w, id, now) && old(tasks)[id].attempt < MAX_INT32
                        && View() == AfterDequeue(old(View()), w, id, now)
      ensures !found ==> View() == old(View())
                         || exists id :: CanDequeue(old(View()), w, id, now) && old(tasks)[id].attempt >= MAX_INT32
                                         && View() == AfterDequeueLost(old(View()), w, id, now)
      ensures !found && View() == old(View()) ==>
                cancelled || !dbOpen || forall o :: o in tasks ==> !Due(tasks[o], w.queue, now)
    {
      if cancelled || !dbOpen {
        return false;
      }
      var some, id := SelectNext(w.queue, now);
      if !some {
        return false;
      }
      assert CanDequeue(View(), w, id, now);
      DequeueStep(View(), w, id, now);
      TakenStep(View(), w, id, now);
      var t := TakenRow(tasks[id], now);
      assert t != tasks[id];
      tasks := tasks[id := t];
      history := Taken(old(View()), id, now).history;
      ledger := Taken(old(View()), id, now).ledger;
      if t.attempt > MAX_INT32 {
        return false;
      }
      workers := workers[w := Busy(Claim(id, t.payload, t.attempt, t.maxRetries))];
      return true;
    }

    method CompleteTask(w: WorkerId, message: string, now: int)
      requires Valid() && Holds(View(), w)
      modifies this
      ensures View() == if cancelled || !dbOpen then AfterWriteLost(old(View()), w)
                        else AfterComplete(old(View()), w, message, now)
      ensures Valid()
      ensures var id := old(workers[w].claim.id);
              !cancelled && dbOpen ==>
                && id in old(tasks)
                && tasks == old(tasks)[id := old(tasks)[id].(status := Completed, message := message, updatedAt := now)]
    {
      TaskQueueRuns.HeldClaim(View(), w);
      var id := workers[w].claim.id;
      if cancelled || !dbOpen {
        ReleaseStep(View(), w);
      } else {
        CompleteStep(View(), w, message, now);
        tasks := tasks[id := CompletedRow(tasks[id], message, now)];
      }
      workers := workers[w := Idle];
    }

    method HandleTaskFailure(w: WorkerId, message: string, error: string, now: int)
      requires Valid() && Holds(View(), w)
      modifies this
      ensures View() == if cancelled || !dbOpen then AfterWriteLost(old(View()), w)
                        else AfterFail(old(View()), w, if message == "" then error else message, now)
      ensures Valid()
    {
      var text := if message == "" then error else message;
      TaskQueueRuns.HeldClaim(View(), w);
      var c := workers[w].claim;
      if cancelled || !dbOpen {
        ReleaseStep(View(), w);
      } else {
        FailStep(View(), w, text, now);
        var row := FailOrRetry(tasks[c.id], c, queues[w.queue].backoffMs, text, now);
        tasks := tasks[c.id := row];
      }
      workers := workers[w := Idle];
    }

    /** Fails the row for good once the retries are used up; otherwise schedules the next attempt. */
    method FailOrRetry(t: Task, c: Claim, backoffMs: int64, message: string, now: int) returns (row: Task)
      ensures row == FailedRow(t, c, backoffMs, message, now)
    {
      if c.attempt > c.maxRetries {
        return t.(status := Failed, message := message, updatedAt := now);
      }
      var backoff := ShiftLeft64(backoffMs, c.attempt - 1);
      if backoff <= 0 || backoff > MAX_BACKOFF_MS {
        backoff := MAX_BACKOFF_MS;
      }
      return t.(status := Pending, nextRunAt := now + backoff, updatedAt := now);
    }

    method RevertTaskToPending(w: WorkerId, now: int)
      requires Valid() && Holds(View(), w) && cancelled
      modifies this
      ensures View() == AfterRevert(old(View()), w, now)
      ensures Valid()
    {
      TaskQueueRuns.HeldClaim(View(), w);
      RevertStep(View(), w, now);
      if dbOpen {
        RevertRow(workers[w].claim.id, now);
      }
      workers := workers[w := Idle];
    }

    /** UPDATE ... WHERE id = ? AND status = 'running'. */
    method RevertRow(id: TaskId, now: int)
      requires id in tasks ==> id in history
      modifies this`tasks, this`history, this`ledger
      ensures View() == RowReverted(old(View()), id, now)
    {
      if id in tasks && tasks[id].status.Running? {
        tasks := tasks[id := RevertedRow(tasks[id], now)];
        history := history[id := history[id].(reverts := history[id].reverts + 1)];
        ledger := ledger.(reverts := ledger.reverts + 1);
      }
    }

    /**
     One pass of a worker, when no other step but a shutdown comes between: dequeue, run the callback (whose
     outcome is arbitrary), write the result. Each processed task costs the potential of the table at least one.
     */
    method ProcessTask(w: WorkerId, now: int, later: int) returns (processed: bool)
      requires Valid() && w in workers && workers[w].Idle?
      modifies this
      ensures Valid() && w in workers && workers[w].Idle?
      ensures processed ==> Potential(tasks) < Potential(old(tasks))
      ensures !processed ==> Potential(tasks) <= Potential(old(tasks))
      ensures !processed && !cancelled && dbOpen ==>
                || (forall o :: o in tasks ==> !Due(tasks[o], w.queue, now))
                || (exists o :: o in old(tasks) && old(tasks)[o].attempt >= MAX_INT32)
    {
      ghost var s := View();
      var found := Dequeue(w, now);
      if !found {
        TaskQueueRuns.NotTakenOrLost(s, View(), w, now);
        return false;
      }
      TaskQueueRuns.TakingCosts(s, w, workers[w].claim.id, now);
      var outcome, message := RunCallback(w, later);
      return !outcome.Interrupted?;
    }

    /** Runs the callback of the held row and writes what came of it. */
    method RunCallback(w: WorkerId, now: int) returns (outcome: Outcome, message: string)
      requires Valid() && Holds(View(), w) && !cancelled && dbOpen
      modifies this
      ensures View() == match outcome
                        case Interrupted => AfterRevert(old(View()).(cancelled := true), w, now)
                        case Succeeded => AfterComplete(old(View()), w, message, now)
                        case Errored => AfterFail(old(View()), w, message, now)
      ensures Valid() && w in workers && workers[w].Idle?
      ensures Potential(tasks) <= Potential(old(tasks)) + if outcome.Interrupted? then 1 else 0
    {
      message := *;
      outcome := *;
      match outcome
      case Interrupted =>
        CancelContext();
        TaskQueueRuns.WritePotential(View(), w, message, now);
        RevertTaskToPending(w, now);
      case Succeeded =>
        TaskQueueRuns.WritePotential(View(), w, message, now);
        CompleteTask(w, message, now);
      case Errored =>
        TaskQueueRuns.WritePotential(View(), w, if message == "" then "callback error" else message, now);
        HandleTaskFailure(w, message, "callback error", now);
        message := if message == "" then "callback error" else message;
    }

    method CancelContext()
      requires Valid()
      modifies this
      ensures View() == old(View()).(cancelled := true)
      ensures Valid()
    {
      cancelled := true;
    }

    /** Processes tasks until none is due (or the context is cancelled): it always ends. */
    method DrainQueue(w: WorkerId, clock: int) returns (count: nat)
      requires Valid() && w in workers && workers[w].Idle?
      modifies this
      ensures Valid() && w in workers && workers[w].Idle?
      ensures 0 <= Potential(tasks) <= Potential(old(tasks)) - count
    {
      count := 0;
      var processed, now := true, clock;
      TaskQueueRuns.PotentialNonNegative(tasks);
      while !cancelled && processed
        invariant Valid() && w in workers && workers[w].Idle?
        invariant 0 <= Potential(tasks) <= Potential(old(tasks)) - count
        decreases if processed then Potential(tasks) + 1 else 0
      {
        var elapsed: nat := *;
        processed := ProcessTask(w, now, now + elapsed);
        TaskQueueRuns.PotentialNonNegative(tasks);
        now := now + elapsed;
        if processed {
          count := count + 1;
        }
      }
    }

    /** Deletes, queue by queue, the terminal rows whose retention has passed; nothing once shutdown has begun. */
    method RunCleanup(now: int)
      requires Valid()
      modifies this
      ensures Valid() && queues == old(queues) && workers == old(workers)
      ensures forall id :: id in tasks <==> id in old(tasks) && !Cleaned(old(tasks)[id], queues.Keys, now)
      ensures forall id :: id in tasks ==> tasks[id] == old(tasks)[id]
    {
      var left := queues.Keys;
      while left != {}
        invariant Valid() && queues == old(queues) && workers == old(workers)
        invariant dbOpen == old(dbOpen) && cancelled == old(cancelled) && left <= queues.Keys
        invariant forall id :: id in tasks <==> id in old(tasks) && !Cleaned(old(tasks)[id], queues.Keys - left, now)
        invariant forall id :: id in tasks ==> tasks[id] == old(tasks)[id]
        decreases left
      {
        var name :| name in left;
        left := left - {name};
        CleanupQueue(name, now);
      }
    }

    /** A terminal row of one of the queues, past that queue's retention. */
    predicate Cleaned(t: Task, names: set<string>, now: int)
      reads this
    {
      && dbOpen && !cancelled && t.queue in names && t.queue in queues
      && Expired(t, t.queue, queues[t.queue].retentionMs, now)
    }

    method CleanupQueue(queue: string, now: int)
      requires Valid() && queue in queues
      modifies this`tasks, this`history
      ensures View() == AfterCleanup(old(View()), queue, now)
      ensures Valid()
    {
      CleanupStep(View(), queue, now);
      if dbOpen && !cancelled {
        var gone := set id | id in tasks && Expired(tasks[id], queue, queues[queue].retentionMs, now);
        tasks := tasks - gone;
        history := history - gone;
      }
    }

    /** Signals every goroutine, then hands the rows still running back for recovery and closes the database. */
    method Close(now: int)
      requires Valid()
      modifies this
      ensures View() == AfterCloseDb(old(View()).(cancelled := true), now)
      ensures Valid()
      ensures !dbOpen && (old(dbOpen) ==> forall id :: id in tasks ==> !tasks[id].status.Running?)
    {
      CancelContext();
      ghost var s := View();
      CloseDbStep(s, now);
      if dbOpen {
        HandBack(AllRunning(tasks), now);
        dbOpen := false;
      }
    }
  }
}
