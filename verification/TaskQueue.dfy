/**
 The persistent plugin task queue as a transition system.

 A state holds the `tasks` table, the queues known to the running service, and one entry per worker
 goroutine. Every SQL statement and every change of the in-memory state is one atomic step, so a run
 is any interleaving of API calls, workers, cleanup, shutdown and crashes. Writes may also be lost.
 `history` and `ledger` are bookkeeping for the proofs: no step reads them.
 */
module TaskQueue {
  import opened Words
  import opened Backoff
  import MapSums

  const DEFAULT_CONCURRENCY := 1
  const DEFAULT_BACKOFF_MS := 1000
  const DEFAULT_RETENTION_MS := 3_600_000
  const MIN_RETENTION_MS := 60_000
  const MAX_RETENTION_MS := 604_800_000
  const MAX_QUEUE_NAME_LENGTH := 128
  const MAX_PAYLOAD_SIZE := 1024 * 1024

  type TaskId = string
  type Payload = seq<bv8>

  datatype Status = Pending | Running | Completed | Failed | Cancelled {
    predicate Terminal() {
      Completed? || Failed? || Cancelled?
    }
  }

  datatype Task = Task(
    queue: string, payload: Payload, status: Status, attempt: nat, maxRetries: int32,
    nextRunAt: int, createdAt: int, updatedAt: int, message: string)

  datatype QueueConfig = QueueConfig(
    concurrency: int32, maxRetries: int32, backoffMs: int64, delayMs: int64, retentionMs: int64)

  /** An attempt number as it is scanned into a worker's int32 after the dequeue has counted it. */
  type Attempt = x: int | 1 <= x <= MAX_INT32 witness 1

  /** What a worker remembers of the row it dequeued. */
  datatype Claim = Claim(id: TaskId, payload: Payload, attempt: Attempt, maxRetries: int32)

  datatype WorkerId = WorkerId(queue: string, index: nat)

  datatype Worker = Idle | Busy(claim: Claim)

  /** Per row: how often it was dequeued, reverted at shutdown, and reset by CreateQueue or Close. */
  datatype History = History(dequeues: nat, reverts: nat, resets: nat)

  /** Totals over a run; `enqueued` adds up the weights of the rows inserted. */
  datatype Ledger = Ledger(enqueued: nat, dequeues: nat, reverts: nat, resets: nat)

  datatype State = State(
    maxConcurrency: int32, queues: map<string, QueueConfig>, tasks: map<TaskId, Task>,
    workers: map<WorkerId, Worker>, cancelled: bool, dbOpen: bool,
    history: map<TaskId, History>, ledger: Ledger)

  datatype Step =
    | CreateQueue(name: string, config: QueueConfig, now: int)
    | Enqueue(queue: string, id: TaskId, payload: Payload, now: int)
    | Cancel(id: TaskId, now: int)
    | ClearQueue(queue: string, now: int)
    | Dequeue(worker: WorkerId, id: TaskId, now: int)
      // The row is taken, but the worker gets an error instead of the row
    | DequeueLost(worker: WorkerId, id: TaskId, now: int)
      // The context was cancelled while waiting or during the callback
    | Revert(worker: WorkerId, now: int)
    | Complete(worker: WorkerId, message: string, now: int)
    | Fail(worker: WorkerId, message: string, now: int)
      // The worker's final UPDATE failed
    | WriteLost(worker: WorkerId)
    | Cleanup(queue: string, now: int)
    | CancelContext
    | CloseDb(now: int)
      // The process crashed, or the service was created again after Close
    | Restart

  /** Zero or out-of-range settings replaced by defaults and bounds. */
  function WithDefaults(config: QueueConfig): (c: QueueConfig)
    ensures c.concurrency >= 1 && c.backoffMs >= 1
    ensures MIN_RETENTION_MS <= c.retentionMs <= MAX_RETENTION_MS
    ensures c.maxRetries == config.maxRetries && c.delayMs == config.delayMs
    ensures c.concurrency == if config.concurrency >= 1 then config.concurrency else DEFAULT_CONCURRENCY
    ensures c.backoffMs == if config.backoffMs >= 1 then config.backoffMs else DEFAULT_BACKOFF_MS
    ensures config.retentionMs <= 0 ==> c.retentionMs == DEFAULT_RETENTION_MS
    ensures 0 < config.retentionMs < MIN_RETENTION_MS ==> c.retentionMs == MIN_RETENTION_MS
    ensures MIN_RETENTION_MS <= config.retentionMs <= MAX_RETENTION_MS ==> c.retentionMs == config.retentionMs
  {
    var retention := if config.retentionMs <= 0 then DEFAULT_RETENTION_MS else config.retentionMs;
    config.(
      concurrency := if config.concurrency <= 0 then DEFAULT_CONCURRENCY else config.concurrency,
      backoffMs := if config.backoffMs <= 0 then DEFAULT_BACKOFF_MS else config.backoffMs,
      retentionMs := Min(Max(retention, MIN_RETENTION_MS), MAX_RETENTION_MS))
  }

  function Concurrencies(queues: map<string, QueueConfig>): map<string, int> {
    map q | q in queues :: queues[q].concurrency
  }

  ghost function Allocated(queues: map<string, QueueConfig>): int {
    MapSums.Sum(Concurrencies(queues))
  }

  function WorkerIds(queue: string, concurrency: int): set<WorkerId> {
    set i | 0 <= i < concurrency :: WorkerId(queue, i)
  }

  function Spawned(queue: string, concurrency: int): map<WorkerId, Worker> {
    map w | w in WorkerIds(queue, concurrency) :: Idle
  }

  predicate Due(t: Task, queue: string, now: int) {
    t.queue == queue && t.status.Pending? && t.nextRunAt <= now
  }

  /** The order of the dequeue query: next_run_at, then created_at. */
  predicate NotLater(a: Task, b: Task) {
    a.nextRunAt < b.nextRunAt || (a.nextRunAt == b.nextRunAt && a.createdAt <= b.createdAt)
  }

  predicate IsNext(tasks: map<TaskId, Task>, queue: string, now: int, id: TaskId) {
    && id in tasks
    && Due(tasks[id], queue, now)
    && forall o :: o in tasks && Due(tasks[o], queue, now) ==> NotLater(tasks[id], tasks[o])
  }

  predicate Expired(t: Task, queue: string, retentionMs: int, now: int) {
    t.queue == queue && t.status.Terminal() && t.updatedAt + retentionMs < now
  }

  /** Callbacks a row can still cause, on its own account. */
  function Weight(t: Task): nat {
    match t.status
    case Pending => Max(1, t.maxRetries + 1 - t.attempt)
    case Running => Max(0, t.maxRetries + 1 - t.attempt)
    case _ => 0
  }

  function Weights(tasks: map<TaskId, Task>): map<TaskId, int> {
    map id | id in tasks :: Weight(tasks[id])
  }

  ghost function Potential(tasks: map<TaskId, Task>): int {
    MapSums.Sum(Weights(tasks))
  }

  function RunningIn(tasks: map<TaskId, Task>, queue: string): set<TaskId> {
    set id | id in tasks && tasks[id].status.Running? && tasks[id].queue == queue
  }

  function AllRunning(tasks: map<TaskId, Task>): set<TaskId> {
    set id | id in tasks && tasks[id].status.Running?
  }

  function PendingIn(tasks: map<TaskId, Task>, queue: string): set<TaskId> {
    set id | id in tasks && tasks[id].status.Pending? && tasks[id].queue == queue
  }

  /** UPDATE tasks SET status = ?, updated_at = ? over the given rows. */
  function WithStatus(tasks: map<TaskId, Task>, ids: set<TaskId>, status: Status, now: int): map<TaskId, Task> {
    map id | id in tasks :: if id in ids then tasks[id].(status := status, updatedAt := now) else tasks[id]
  }

  function Reset(s: State, ids: set<TaskId>, now: int): State {
    s.(tasks := WithStatus(s.tasks, ids, Pending, now),
       history := map id | id in s.history :: if id in ids then s.history[id].(resets := s.history[id].resets + 1)
                                              else s.history[id],
       ledger := s.ledger.(resets := s.ledger.resets + |ids|))
  }

  function TakenRow(t: Task, now: int): Task {
    t.(status := Running, attempt := t.attempt + 1, updatedAt := now)
  }

  function Taken(s: State, id: TaskId, now: int): State
    requires id in s.tasks && id in s.history
  {
    s.(tasks := s.tasks[id := TakenRow(s.tasks[id], now)],
       history := s.history[id := s.history[id].(dequeues := s.history[id].dequeues + 1)],
       ledger := s.ledger.(dequeues := s.ledger.dequeues + 1))
  }

  predicate CanDequeue(s: State, w: WorkerId, id: TaskId, now: int) {
    && s.dbOpen && !s.cancelled && w in s.workers && s.workers[w].Idle?
    && IsNext(s.tasks, w.queue, now, id) && id in s.history
  }

  predicate Holds(s: State, w: WorkerId) {
    w in s.workers && s.workers[w].Busy?
  }

  function Release(s: State, w: WorkerId): State {
    s.(workers := s.workers[w := Idle])
  }

  function RevertedRow(t: Task, now: int): Task {
    t.(status := Pending, attempt := Max(t.attempt - 1, 0), updatedAt := now)
  }

  function CompletedRow(t: Task, message: string, now: int): Task {
    t.(status := Completed, message := message, updatedAt := now)
  }

  /** The retry or final failure that handleTaskFailure writes, decided from what the worker remembers. */
  function FailedRow(t: Task, c: Claim, backoffMs: int64, message: string, now: int): Task {
    if c.attempt > c.maxRetries then
      t.(status := Failed, message := message, updatedAt := now)
    else
      t.(status := Pending, nextRunAt := now + RetryBackoff(backoffMs, c.attempt), updatedAt := now)
  }

  ghost predicate QueueRejected(s: State, name: string) {
    || !s.dbOpen || name == "" || |name| > MAX_QUEUE_NAME_LENGTH
    || s.maxConcurrency - Allocated(s.queues) <= 0 || name in s.queues
  }

  predicate EnqueueRejected(s: State, queue: string, id: TaskId, payload: Payload) {
    !s.dbOpen || queue !in s.queues || |payload| > MAX_PAYLOAD_SIZE || id in s.tasks
  }

  function NewTask(queue: string, payload: Payload, maxRetries: int32, now: int): Task {
    Task(queue, payload, Pending, 0, maxRetries, now, now, now, "")
  }

  // ----- The steps; a step that is not enabled changes nothing -----

  /** The configuration CreateQueue stores: defaults filled in, concurrency cut to what is left of the budget. */
  ghost function Clamped(s: State, config: QueueConfig): QueueConfig
    requires Allocated(s.queues) < s.maxConcurrency
  {
    var c := WithDefaults(config);
    c.(concurrency := Min(c.concurrency, s.maxConcurrency - Allocated(s.queues)))
  }

  ghost function AfterCreateQueue(s: State, name: string, config: QueueConfig, now: int): State {
    if QueueRejected(s, name) then s
    else
      var clamped := Clamped(s, config);
      Reset(s, RunningIn(s.tasks, name), now).(
        queues := s.queues[name := clamped],
        workers := s.workers + Spawned(name, clamped.concurrency))
  }

  function AfterEnqueue(s: State, queue: string, id: TaskId, payload: Payload, now: int): State {
    if EnqueueRejected(s, queue, id, payload) then s
    else
      var t := NewTask(queue, payload, s.queues[queue].maxRetries, now);
      s.(tasks := s.tasks[id := t],
         history := s.history[id := History(0, 0, 0)],
         ledger := s.ledger.(enqueued := s.ledger.enqueued + Weight(t)))
  }

  function AfterCancel(s: State, id: TaskId, now: int): State {
    if s.dbOpen && id in s.tasks && s.tasks[id].status.Pending? then
      s.(tasks := WithStatus(s.tasks, {id}, Cancelled, now))
    else s
  }

  function AfterClearQueue(s: State, queue: string, now: int): State {
    if s.dbOpen && queue in s.queues then
      s.(tasks := WithStatus(s.tasks, PendingIn(s.tasks, queue), Cancelled, now))
    else s
  }

  function AfterDequeue(s: State, w: WorkerId, id: TaskId, now: int): State {
    if !CanDequeue(s, w, id, now) then s
    else
      var t := TakenRow(s.tasks[id], now);
      if t.attempt > MAX_INT32 then Taken(s, id, now)
      else Taken(s, id, now).(workers := s.workers[w := Busy(Claim(id, t.payload, t.attempt, t.maxRetries))])
  }

  function AfterDequeueLost(s: State, w: WorkerId, id: TaskId, now: int): State {
    if !CanDequeue(s, w, id, now) then s else Taken(s, id, now)
  }

  function AfterRevert(s: State, w: WorkerId, now: int): State {
    if !Holds(s, w) || !s.cancelled then s
    else if !s.dbOpen then Release(s, w)
    else Release(RowReverted(s, s.workers[w].claim.id, now), w)
  }

  /** The update that gives a row back has a status guard. */
  function RowReverted(s: State, id: TaskId, now: int): State {
    if id !in s.tasks || id !in s.history || !s.tasks[id].status.Running? then s
    else
      s.(tasks := s.tasks[id := RevertedRow(s.tasks[id], now)],
         history := s.history[id := s.history[id].(reverts := s.history[id].reverts + 1)],
         ledger := s.ledger.(reverts := s.ledger.reverts + 1))
  }

  function AfterComplete(s: State, w: WorkerId, message: string, now: int): State {
    if !Holds(s, w) || s.cancelled || !s.dbOpen then s
    else
      var id := s.workers[w].claim.id;
      Release(s, w).(tasks := if id in s.tasks then s.tasks[id := CompletedRow(s.tasks[id], message, now)] else s.tasks)
  }

  function AfterFail(s: State, w: WorkerId, message: string, now: int): State {
    if !Holds(s, w) || s.cancelled || !s.dbOpen || w.queue !in s.queues then s
    else
      var c := s.workers[w].claim;
      Release(s, w).(tasks :=
        if c.id in s.tasks then
          s.tasks[c.id := FailedRow(s.tasks[c.id], c, s.queues[w.queue].backoffMs, message, now)]
        else s.tasks)
  }

  function AfterWriteLost(s: State, w: WorkerId): State {
    if !Holds(s, w) then s else Release(s, w)
  }

  function ExpiredIn(s: State, queue: string, now: int): set<TaskId>
    requires queue in s.queues
  {
    set id | id in s.tasks && Expired(s.tasks[id], queue, s.queues[queue].retentionMs, now)
  }

  function AfterCleanup(s: State, queue: string, now: int): State {
    if !s.dbOpen || s.cancelled || queue !in s.queues then s
    else s.(tasks := s.tasks - ExpiredIn(s, queue, now), history := s.history - ExpiredIn(s, queue, now))
  }

  function AfterCloseDb(s: State, now: int): State {
    if !s.cancelled || !s.dbOpen then s else Reset(s, AllRunning(s.tasks), now).(dbOpen := false)
  }

  function AfterRestart(s: State): State {
    s.(queues := map[], workers := map[], cancelled := false, dbOpen := true)
  }

  ghost function Apply(s: State, e: Step): State {
    match e
    case CreateQueue(name, config, now) => AfterCreateQueue(s, name, config, now)
    case Enqueue(queue, id, payload, now) => AfterEnqueue(s, queue, id, payload, now)
    case Cancel(id, now) => AfterCancel(s, id, now)
    case ClearQueue(queue, now) => AfterClearQueue(s, queue, now)
    case Dequeue(w, id, now) => AfterDequeue(s, w, id, now)
    case DequeueLost(w, id, now) => AfterDequeueLost(s, w, id, now)
    case Revert(w, now) => AfterRevert(s, w, now)
    case Complete(w, message, now) => AfterComplete(s, w, message, now)
    case Fail(w, message, now) => AfterFail(s, w, message, now)
    case WriteLost(w) => AfterWriteLost(s, w)
    case Cleanup(queue, now) => AfterCleanup(s, queue, now)
    case CancelContext => s.(cancelled := true)
    case CloseDb(now) => AfterCloseDb(s, now)
    case Restart => AfterRestart(s)
  }

  ghost function Exec(s: State, steps: seq<Step>): State
    decreases |steps|
  {
    if steps == [] then s else Exec(Apply(s, steps[0]), steps[1..])
  }

  function Init(maxConcurrency: int32): State {
    State(maxConcurrency, map[], map[], map[], false, true, map[], Ledger(0, 0, 0, 0))
  }

  // ----- The invariant -----

  ghost predicate BudgetOk(s: State) {
    && s.maxConcurrency >= 1
    && Allocated(s.queues) <= s.maxConcurrency
    && forall q :: q in s.queues ==>
                     s.queues[q].concurrency >= 1 && s.queues[q].backoffMs >= 1
                     && MIN_RETENTION_MS <= s.queues[q].retentionMs <= MAX_RETENTION_MS
  }

  ghost predicate WorkersOk(s: State) {
    && |s.workers| == Allocated(s.queues)
    && forall w :: w in s.workers ==> w.queue in s.queues && w.index < s.queues[w.queue].concurrency
  }

  predicate ClaimMatches(tasks: map<TaskId, Task>, queue: string, c: Claim) {
    && c.id in tasks
    && tasks[c.id].status.Running?
    && tasks[c.id].queue == queue
    && tasks[c.id].payload == c.payload
    && tasks[c.id].attempt == c.attempt
    && tasks[c.id].maxRetries == c.maxRetries
  }

  /** Until the database is closed, the row a worker holds is running and is what the worker remembers. */
  ghost predicate ClaimsOk(s: State) {
    s.dbOpen ==> forall w :: Holds(s, w) ==> ClaimMatches(s.tasks, w.queue, s.workers[w].claim)
  }

  ghost predicate Exclusive(s: State) {
    forall v, w :: Holds(s, v) && Holds(s, w) && v != w ==> s.workers[v].claim.id != s.workers[w].claim.id
  }

  predicate RowOk(t: Task, h: History) {
    && t.attempt == h.dequeues - h.reverts
    && (t.status.Running? || t.status.Completed? || t.status.Failed? ==> t.attempt >= 1)
    && t.attempt <= Max(t.maxRetries, 0) + h.resets + (if t.status.Pending? then 0 else 1)
    && (t.status.Failed? ==> t.attempt > t.maxRetries)
  }

  ghost predicate RowsOk(s: State) {
    && s.tasks.Keys == s.history.Keys
    && forall id :: id in s.tasks ==> RowOk(s.tasks[id], s.history[id])
  }

  /** Every dequeue was paid for by an insert, a shutdown revert or a recovery reset. */
  ghost predicate LedgerOk(s: State) {
    Potential(s.tasks) + s.ledger.dequeues <= s.ledger.enqueued + s.ledger.reverts + s.ledger.resets
  }

  ghost predicate Inv(s: State) {
    BudgetOk(s) && WorkersOk(s) && ClaimsOk(s) && Exclusive(s) && RowsOk(s) && LedgerOk(s)
  }
}
