/** Every committed transaction of the job table as one event, and what it does to the rows. */
module JobQueue {
  import opened Prelude
  import opened BackgroundJobs

  type Rows = map<JobId, Job>

  /** The way an operation is refused.  A refused operation commits nothing. */
  datatype Fault =
    | Conflict      // the lease is not (or no longer) held by this worker
    | BadArgument   // an argument is refused before anything is written
    | Rejected      // the lifecycle validator refuses the new job
    | Integrity     // a constraint of the table refuses the new row
    | Missing       // no such job
    | NotDue        // the row is not one that this step of `claim_next` selects

  datatype Reply = Ok(job: Job) | Err(fault: Fault)

  /**
   * One committed transaction.  `claim_next` commits once per row it meets: `Sweep` is an iteration that
   * ends a row nobody may run any more, `Claim` is the final iteration that grants a lease.
   */
  datatype Event =
    | Enqueue(job: Job, at: Instant)
    | Sweep(id: JobId, at: Instant)
    | Claim(id: JobId, worker: Padded, lease: Duration, at: Instant)
    | Heartbeat(id: JobId, worker: Padded, progress: int, lease: Duration, at: Instant)
    | Succeed(id: JobId, worker: Padded, result: Option<string>, at: Instant)
    | Fail(id: JobId, worker: Padded, code: Text, message: Text, retryable: bool,
           delay: Option<Duration>, at: Instant)
    | Cancel(id: JobId, at: Instant)
    | Retry(id: JobId, at: Instant)
  {
    predicate OwnerOperation() {
      Heartbeat? || Succeed? || Fail?
    }

    /** An operation that `worker` sends about `id` while it believes that it owns the lease. */
    predicate SentBy(w: Padded, j: JobId) {
      OwnerOperation() && id == j && worker == w
    }
  }

  // ---- Single rows ----

  /** The rows that `claim_next` selects. */
  predicate Due(j: Job, now: Instant) {
    || (j.status.Queued? && j.runAfter <= now)
    || (j.status.Running? && j.leaseExpiresAt.Some? && j.leaseExpiresAt.value <= now)
  }

  /** A selected row that is granted rather than ended. */
  predicate Claimable(j: Job) {
    !j.cancelRequested && j.attempts < j.maxAttempts
  }

  predicate Owned(j: Job, worker: Padded, now: Instant) {
    && j.status.Running? && j.leaseOwner == Some(worker)
    && j.leaseExpiresAt.Some? && now < j.leaseExpiresAt.value
  }

  /** The order in which `claim_next` considers due rows. */
  predicate Before(a: Job, b: Job) {
    a.runAfter < b.runAfter || (a.runAfter == b.runAfter && a.createdAt < b.createdAt)
  }

  function Ended(j: Job, status: Status, at: Instant): Job {
    j.(status := status, leaseOwner := None, leaseExpiresAt := None, updatedAt := at, finishedAt := Some(at))
  }

  function AsCancelled(j: Job, at: Instant): Job {
    Ended(j, Cancelled, at).(cancelRequested := true)
  }

  function AsExhausted(j: Job, at: Instant): Job {
    Ended(j, Failed, at).(
      errorCode := Some(EXHAUSTED_CODE), errorMessage := Some(EXHAUSTED_MESSAGE))
  }

  function AsGranted(j: Job, worker: Padded, lease: Duration, at: Instant): Job {
    j.(status := Running,
       attempts := j.attempts + 1,
       leaseOwner := Some(worker.Strip()),
       leaseExpiresAt := Some(at + lease),
       startedAt := if j.startedAt.Some? then j.startedAt else Some(at),
       updatedAt := at,
       finishedAt := None,
       errorCode := None,
       errorMessage := None)
  }

  function AsRenewed(j: Job, progress: int, lease: Duration, at: Instant): Job {
    j.(progress := progress, leaseExpiresAt := Some(at + lease), updatedAt := at)
  }

  function AsSucceeded(j: Job, result: Option<string>, at: Instant): Job {
    Ended(j, Succeeded, at).(progress := 100, resultReference := result)
  }

  function AsRequeued(j: Job, delay: Duration, at: Instant): Job {
    j.(status := Queued, progress := 0, leaseOwner := None, leaseExpiresAt := None,
       runAfter := at + delay, updatedAt := at)
  }

  function Truncated(message: Text): Text {
    if message.length <= 500 then message else message.(length := 500)
  }

  function AsFailed(j: Job, code: Text, message: Text, at: Instant): Job {
    Ended(j, Failed, at).(errorCode := Some(code), errorMessage := Some(Truncated(message)))
  }

  function AsRetried(j: Job, at: Instant): Job {
    j.(status := Queued, progress := 0, maxAttempts := j.attempts + 1, runAfter := at,
       cancelRequested := false, resultReference := None, errorCode := None, errorMessage := None,
       updatedAt := at, finishedAt := None)
  }

  function DelayOf(delay: Option<Duration>): Duration {
    if delay.Some? then delay.value else 0
  }

  /** Arguments refused before the row is read. */
  predicate ArgumentsRefused(e: Event) {
    match e
    case Claim(_, worker, lease, _) => worker.Blank() || lease <= 0
    case Heartbeat(_, _, _, lease, _) => lease <= 0
    case Fail(_, _, _, _, _, delay, _) => DelayOf(delay) < 0
    case _ => false
  }

  /** Why the row does not admit the transaction, if it does not. */
  function Refusal(j: Job, e: Event): Option<Fault>
    requires !e.Enqueue?
  {
    match e
    case Sweep(_, at) => if Due(j, at) && !Claimable(j) then None else Some(NotDue)
    case Claim(_, _, _, at) => if Due(j, at) && Claimable(j) then None else Some(NotDue)
    case Heartbeat(_, worker, progress, _, at) =>
      if !Owned(j, worker, at) then Some(Conflict)
      else if progress < j.progress || !(0 <= progress < 100) then Some(BadArgument)
      else None
    case Succeed(_, worker, _, at) => if Owned(j, worker, at) then None else Some(Conflict)
    case Fail(_, worker, _, _, _, _, at) => if Owned(j, worker, at) then None else Some(Conflict)
    case Cancel(_, _) => None
    case Retry(_, _) => if j.status.Failed? && j.attempts < MAX_ATTEMPTS then None else Some(BadArgument)
  }

  /** The row that the transaction writes once it is admitted. */
  function Next(j: Job, e: Event): Job
    requires !e.Enqueue?
  {
    match e
    case Sweep(_, at) => if j.cancelRequested then AsCancelled(j, at) else AsExhausted(j, at)
    case Claim(_, worker, lease, at) => AsGranted(j, worker, lease, at)
    case Heartbeat(_, _, progress, lease, at) => AsRenewed(j, progress, lease, at)
    case Succeed(_, _, result, at) => if j.cancelRequested then AsCancelled(j, at) else AsSucceeded(j, result, at)
    case Fail(_, _, code, message, retryable, delay, at) =>
      if j.cancelRequested then AsCancelled(j, at)
      else if retryable && j.attempts < j.maxAttempts then AsRequeued(j, DelayOf(delay), at)
      else AsFailed(j, code, message, at)
    case Cancel(_, at) =>
      if j.IsTerminal() then j
      else if j.status.Queued? then AsCancelled(j, at)
      else j.(cancelRequested := true, updatedAt := at)
    case Retry(_, at) => AsRetried(j, at)
  }

  /** The constraints of the table, checked at commit. */
  function CheckedByTable(j: Job): Reply {
    if !TableChecks(j) then Err(Integrity) else Ok(j)
  }

  /** Validation of the new job, then the constraints of its row. */
  function Committed(j: Job): Reply {
    if !Valid(j) then Err(Rejected) else CheckedByTable(j)
  }

  /** The job that fails after its last attempt is the one write that is not validated again. */
  function SweepReply(j: Job, at: Instant): Reply {
    if j.cancelRequested then Committed(AsCancelled(j, at)) else CheckedByTable(AsExhausted(j, at))
  }

  function RowReply(j: Job, e: Event): Reply
    requires !e.Enqueue?
  {
    var refusal := Refusal(j, e);
    if refusal.Some? then Err(refusal.value)
    else if e.Sweep? then SweepReply(j, e.at)
    else if e.Cancel? && j.IsTerminal() then Ok(j)
    else Committed(Next(j, e))
  }

  // ---- The whole table ----

  predicate SameKey(a: Job, b: Job) {
    a.idempotencyKey.Some? && a.kind == b.kind && a.idempotencyKey == b.idempotencyKey
  }

  predicate KeyTaken(rows: Rows, j: Job) {
    exists id :: id in rows && SameKey(j, rows[id])
  }

  /** The stored job that already answers to the key of `j`. */
  ghost function Holder(rows: Rows, j: Job): (id: JobId)
    requires KeyTaken(rows, j)
    ensures id in rows && SameKey(j, rows[id])
  {
    var id :| id in rows && SameKey(j, rows[id]); id
  }

  /** An enqueue either finds the holder of its key, or inserts the job, or violates a constraint. */
  ghost function EnqueueReply(rows: Rows, j: Job): Reply {
    if KeyTaken(rows, j) then Ok(rows[Holder(rows, j)])
    else if j.jobId in rows || !RowOk(j) then Err(BadArgument)
    else Ok(j)
  }

  ghost function ReplyTo(rows: Rows, e: Event): Reply {
    if e.Enqueue? then EnqueueReply(rows, e.job)
    else if ArgumentsRefused(e) then Err(BadArgument)
    else if e.id !in rows then Err(Missing)
    else RowReply(rows[e.id], e)
  }

  ghost predicate Accepted(rows: Rows, e: Event) {
    ReplyTo(rows, e).Ok?
  }

  /** A refused transaction leaves the table as it was; an accepted one writes the row it answers with. */
  ghost function Step(rows: Rows, e: Event): Rows {
    var reply := ReplyTo(rows, e);
    if reply.Err? then rows
    else if e.Enqueue? then (if KeyTaken(rows, e.job) then rows else rows[e.job.jobId := e.job])
    else rows[e.id := reply.job]
  }

  ghost function Run(rows: Rows, events: seq<Event>): Rows {
    if events == [] then rows else Step(Run(rows, events[..|events| - 1]), events[|events| - 1])
  }

  /** Everything the table can hold: the empty table after any sequence of transactions. */
  ghost function Replay(history: seq<Event>): Rows {
    Run(map[], history)
  }

  lemma {:induction false} RunConcat(rows: Rows, s: seq<Event>, t: seq<Event>)
    ensures Run(rows, s + t) == Run(Run(rows, s), t)
  {
    if t == [] {
      assert s + t == s;
    } else {
      var u := t[..|t| - 1];
      RunConcat(rows, s, u);
      assert (s + t)[..|s + t| - 1] == s + u;
    }
  }

  lemma RunOne(rows: Rows, s: seq<Event>, e: Event)
    ensures Run(rows, s + [e]) == Step(Run(rows, s), e)
  {
    assert (s + [e])[..|s + [e]| - 1] == s;
  }

  /** Clocks of the sessions agree: no transaction carries an earlier time than one committed before it. */
  predicate Chronological(events: seq<Event>) {
    forall i, k :: 0 <= i < k < |events| ==> events[i].at <= events[k].at
  }
}
