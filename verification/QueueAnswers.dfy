/**
 * Which calls the queue accepts and what an accepted one leaves in its row, in plain fields.  An answer passes four
 * layers: the arguments, the row, the lifecycle validator of the new row, and the constraints of the table.  Here
 * each operation has one condition for all of them, over every table that the queue can reach.
 */
module QueueAnswers {
  import opened Prelude
  import opened BackgroundJobs
  import opened JobQueue
  import opened QueueSafety

  /** The clock has not receded behind the job. */
  predicate ClockFits(j: Job, at: Instant) {
    j.createdAt <= at && (j.startedAt.Some? ==> j.startedAt.value <= at)
  }

  /** The fields of a row that no operation but its own enqueue sets. */
  predicate SameOrigin(j: Job, k: Job) {
    SameIdentity(j, k) && k.payloadVersion == j.payloadVersion
  }

  predicate Unleased(j: Job) {
    j.leaseOwner.None? && j.leaseExpiresAt.None?
  }

  /**
   * The validator and the table together leave these rows, status by status; neither of the two says all of it.
   */
  lemma RowOkExactlyWhen(j: Job)
    ensures RowOk(j) <==>
      && 1 <= j.payloadVersion && (j.idempotencyKey.Some? ==> 1 <= |j.idempotencyKey.value| <= 200)
      && 0 <= j.attempts <= j.maxAttempts && 1 <= j.maxAttempts <= 10 && 0 <= j.progress <= 100
      && j.createdAt <= j.updatedAt && j.createdAt <= j.runAfter
      && (j.startedAt.Some? ==> j.createdAt <= j.startedAt.value)
      && match j.status
         case Queued => Unleased(j) && j.finishedAt.None? && j.NoOutcome()
         case Running =>
           && j.leaseOwner.Some? && 1 <= j.leaseOwner.value.Length() <= 100 && j.leaseExpiresAt.Some?
           && j.startedAt.Some? && j.finishedAt.None? && 1 <= j.attempts && j.progress < 100 && j.NoOutcome()
         case Succeeded =>
           && Unleased(j) && j.finishedAt.Some? && ClockFits(j, j.finishedAt.value) && j.progress == 100
           && Bounded(j.resultReference, 200) && j.errorCode.None? && j.errorMessage.None?
         case Failed =>
           && Unleased(j) && j.finishedAt.Some? && ClockFits(j, j.finishedAt.value) && j.resultReference.None?
           && j.errorCode.Some? && 1 <= j.errorCode.value.length <= 100
           && j.errorMessage.Some? && 1 <= j.errorMessage.value.length <= 500
         case Cancelled =>
           Unleased(j) && j.finishedAt.Some? && ClockFits(j, j.finishedAt.value) && j.NoOutcome()
  {
  }

  /** The row has reached the moment from which a claim considers it. */
  predicate Reached(j: Job, at: Instant) {
    match j.status
    case Queued => j.runAfter <= at
    case Running => j.leaseExpiresAt.Some? && j.leaseExpiresAt.value <= at
    case _ => false
  }

  /** A job that a claim may take on: reached, with an attempt left, and not to be cancelled. */
  predicate Runnable(j: Job, at: Instant) {
    Reached(j, at) && !j.cancelRequested && j.attempts < j.maxAttempts
  }

  /** Claims go by run time, and by creation time among equal run times. */
  predicate NoLater(j: Job, k: Job) {
    j.runAfter < k.runAfter || (j.runAfter == k.runAfter && j.createdAt <= k.createdAt)
  }

  /** A claim takes over a queued job from its run time on, and a running one from the expiry of its lease on. */
  lemma ClaimIsAcceptedExactlyWhen(rows: Rows, claim: Event)
    requires TableOk(rows) && claim.Claim?
    ensures Accepted(rows, claim) <==>
      && 1 <= |claim.worker.core| <= 100 && 0 < claim.lease && claim.id in rows
      && var j := rows[claim.id];
         Runnable(j, claim.at) && j.progress < 100 && j.createdAt <= claim.at
    ensures Accepted(rows, claim) ==>
      var j, k := rows[claim.id], Step(rows, claim)[claim.id];
      && k.status.Running? && k.leaseOwner == Some(Padded("", claim.worker.core, ""))
      && k.leaseExpiresAt == Some(claim.at + claim.lease) && k.attempts == j.attempts + 1
      && k.startedAt == (if j.startedAt.Some? then j.startedAt else Some(claim.at)) && k.updatedAt == claim.at
      && SameOrigin(j, k) && k.progress == j.progress && k.maxAttempts == j.maxAttempts && k.runAfter == j.runAfter
      && !k.cancelRequested && k.NoOutcome() && k.finishedAt.None?
  {
    if claim.id in rows && !ArgumentsRefused(claim) && Refusal(rows[claim.id], claim).None? {
      GrantRefusedExactlyWhen(rows[claim.id], claim.worker, claim.lease, claim.at);
    }
  }

  /** How an ended row looks. */
  predicate EndedAt(j: Job, k: Job, at: Instant) {
    && SameOrigin(j, k) && Unleased(k) && k.finishedAt == Some(at) && k.updatedAt == at
    && k.attempts == j.attempts && k.maxAttempts == j.maxAttempts && k.startedAt == j.startedAt && k.runAfter == j.runAfter
  }

  predicate CancelledAt(j: Job, k: Job, at: Instant) {
    k.status.Cancelled? && EndedAt(j, k, at) && k.progress == j.progress && k.cancelRequested && k.NoOutcome()
  }

  predicate FailedAt(j: Job, k: Job, at: Instant, code: Text, message: Text) {
    && k.status.Failed? && EndedAt(j, k, at) && k.progress == j.progress && k.cancelRequested == j.cancelRequested
    && k.errorCode == Some(code) && k.errorMessage == Some(message) && k.resultReference.None?
  }

  lemma SweepRow(j: Job, e: Event)
    requires RowOk(j) && e.Sweep?
    ensures RowReply(j, e).Ok? <==> Reached(j, e.at) && (j.cancelRequested || j.attempts == j.maxAttempts) && ClockFits(j, e.at)
    ensures RowReply(j, e).Ok? ==>
      if j.cancelRequested then CancelledAt(j, RowReply(j, e).job, e.at)
      else FailedAt(j, RowReply(j, e).job, e.at, Text(AttemptsExhausted, 18), Text(AttemptsExhausted, 52))
  {
  }

  /** The iteration of a claim that ends a row instead. */
  lemma SweepIsAcceptedExactlyWhen(rows: Rows, sweep: Event)
    requires TableOk(rows) && sweep.Sweep?
    ensures Accepted(rows, sweep) <==>
      && sweep.id in rows
      && var j := rows[sweep.id];
         && Reached(j, sweep.at) && (j.cancelRequested || j.attempts == j.maxAttempts) && ClockFits(j, sweep.at)
    ensures Accepted(rows, sweep) ==>
      var j, k := rows[sweep.id], Step(rows, sweep)[sweep.id];
      if j.cancelRequested then CancelledAt(j, k, sweep.at)
      else FailedAt(j, k, sweep.at, Text(AttemptsExhausted, 18), Text(AttemptsExhausted, 52))
  {
    if sweep.id in rows { SweepRow(rows[sweep.id], sweep); }
  }

  /** The worker holds a lease that has not run out, under the id as it gives it. */
  predicate Holds(j: Job, worker: Padded, at: Instant) {
    j.status == Running && j.leaseOwner == Some(worker) && j.leaseExpiresAt.Some? && !(j.leaseExpiresAt.value <= at)
  }

  /** A heartbeat records the progress and renews the lease from the time of the heartbeat on; nothing else changes. */
  lemma HeartbeatIsAcceptedExactlyWhen(rows: Rows, beat: Event)
    requires TableOk(rows) && beat.Heartbeat?
    ensures Accepted(rows, beat) <==>
      && 0 < beat.lease && beat.id in rows
      && var j := rows[beat.id];
         Holds(j, beat.worker, beat.at) && j.progress <= beat.progress < 100 && j.createdAt <= beat.at
    ensures Accepted(rows, beat) ==>
      var j, k := rows[beat.id], Step(rows, beat)[beat.id];
      && k.progress == beat.progress && k.leaseExpiresAt == Some(beat.at + beat.lease) && k.updatedAt == beat.at
      && j == k.(progress := j.progress, leaseExpiresAt := j.leaseExpiresAt, updatedAt := j.updatedAt)
  {
  }

  /** A success is recorded as such, unless a cancellation was requested meanwhile. */
  lemma SuccessIsAcceptedExactlyWhen(rows: Rows, success: Event)
    requires TableOk(rows) && success.Succeed?
    ensures Accepted(rows, success) <==>
      && success.id in rows
      && var j := rows[success.id];
         && Holds(j, success.worker, success.at) && ClockFits(j, success.at)
         && (j.cancelRequested || success.result.None? || 1 <= |success.result.value| <= 200)
    ensures Accepted(rows, success) ==>
      var j, k := rows[success.id], Step(rows, success)[success.id];
      if j.cancelRequested then CancelledAt(j, k, success.at)
      else
        && k.status.Succeeded? && EndedAt(j, k, success.at) && k.progress == 100 && !k.cancelRequested
        && k.resultReference == success.result && k.errorCode.None? && k.errorMessage.None?
  {
  }

  lemma FailureRow(j: Job, e: Event)
    requires RowOk(j) && e.Fail? && !ArgumentsRefused(e)
    ensures RowReply(j, e).Ok? <==>
      && Holds(j, e.worker, e.at) && j.createdAt <= e.at
      && (j.cancelRequested ==> ClockFits(j, e.at))
      && (!j.cancelRequested && !(e.retryable && j.attempts < j.maxAttempts) ==>
            ClockFits(j, e.at) && 1 <= e.code.length <= 100 && 1 <= e.message.length)
  {
  }

  /**
   * A failure queues the job again after its delay while there are attempts left, and only a final one is recorded
   * with its code and message, the message cut to its field.
   */
  lemma FailureIsAcceptedExactlyWhen(rows: Rows, failure: Event)
    requires TableOk(rows) && failure.Fail?
    ensures Accepted(rows, failure) <==>
      && (failure.delay.Some? ==> 0 <= failure.delay.value) && failure.id in rows
      && var j := rows[failure.id];
         && Holds(j, failure.worker, failure.at) && j.createdAt <= failure.at
         && (j.cancelRequested ==> ClockFits(j, failure.at))
         && (!j.cancelRequested && !(failure.retryable && j.attempts < j.maxAttempts) ==>
               ClockFits(j, failure.at) && 1 <= failure.code.length <= 100 && 1 <= failure.message.length)
    ensures Accepted(rows, failure) ==>
      var j, k := rows[failure.id], Step(rows, failure)[failure.id];
      if j.cancelRequested then CancelledAt(j, k, failure.at)
      else if failure.retryable && j.attempts < j.maxAttempts then
        && k.status.Queued? && Unleased(k) && k.progress == 0 && k.updatedAt == failure.at
        && k.runAfter == failure.at + (if failure.delay.Some? then failure.delay.value else 0)
        && SameOrigin(j, k) && k.attempts == j.attempts && k.maxAttempts == j.maxAttempts
        && k.startedAt == j.startedAt && !k.cancelRequested && k.NoOutcome() && k.finishedAt.None?
      else
        FailedAt(j, k, failure.at, failure.code, Text(failure.message.wording, Min(500, failure.message.length)))
  {
    if failure.id in rows && !ArgumentsRefused(failure) {
      FailureRow(rows[failure.id], failure);
      StepRow(rows, failure, failure.id);
    }
  }

  /** A request to cancel ends a queued job, is noted on a running one, and leaves a finished one alone. */
  lemma CancelIsAcceptedExactlyWhen(rows: Rows, cancel: Event)
    requires TableOk(rows) && cancel.Cancel?
    ensures Accepted(rows, cancel) <==>
      && cancel.id in rows
      && var j := rows[cancel.id];
         match j.status
         case Queued => ClockFits(j, cancel.at)
         case Running => j.createdAt <= cancel.at
         case _ => true
    ensures Accepted(rows, cancel) ==>
      var j, k := rows[cancel.id], Step(rows, cancel)[cancel.id];
      match j.status
      case Queued => CancelledAt(j, k, cancel.at)
      case Running => k.cancelRequested && k.updatedAt == cancel.at
                      && j == k.(cancelRequested := j.cancelRequested, updatedAt := j.updatedAt)
      case _ => k == j
  {
  }

  /** A manual retry is for failed jobs that have been attempted less than ten times, and allows one more attempt. */
  lemma RetryIsAcceptedExactlyWhen(rows: Rows, retry: Event)
    requires TableOk(rows) && retry.Retry?
    ensures Accepted(rows, retry) <==>
      && retry.id in rows
      && rows[retry.id].status.Failed? && rows[retry.id].attempts < 10 && rows[retry.id].createdAt <= retry.at
    ensures Accepted(rows, retry) ==>
      var j, k := rows[retry.id], Step(rows, retry)[retry.id];
      && k.status.Queued? && Unleased(k) && k.progress == 0 && k.runAfter == retry.at && k.updatedAt == retry.at
      && SameOrigin(j, k) && k.attempts == j.attempts && k.maxAttempts == j.attempts + 1
      && k.startedAt == j.startedAt && !k.cancelRequested && k.NoOutcome() && k.finishedAt.None?
  {
  }

  /** Some job of the same kind already has the key. */
  ghost predicate Claimed(rows: Rows, j: Job) {
    exists id ::
      id in rows && rows[id].kind == j.kind && j.idempotencyKey.Some? && rows[id].idempotencyKey == j.idempotencyKey
  }

  /** A key belongs to its kind: only a job of the same kind keeps another from being created. */
  lemma EnqueueIsAcceptedExactlyWhen(rows: Rows, enqueue: Event)
    requires TableOk(rows) && enqueue.Enqueue?
    ensures Accepted(rows, enqueue) <==> Claimed(rows, enqueue.job) || (enqueue.job.jobId !in rows && RowOk(enqueue.job))
    ensures Accepted(rows, enqueue) ==>
      Step(rows, enqueue) == if Claimed(rows, enqueue.job) then rows else rows[enqueue.job.jobId := enqueue.job]
  {
    assert Claimed(rows, enqueue.job) <==> KeyTaken(rows, enqueue.job) by {
      forall id | id in rows
        ensures SameKey(enqueue.job, rows[id]) <==>
          rows[id].kind == enqueue.job.kind && enqueue.job.idempotencyKey.Some?
          && rows[id].idempotencyKey == enqueue.job.idempotencyKey
      {
      }
    }
  }
}
