/** Leases over whole runs: fencing, exclusivity, attempts, back-off and cancellation. */
module QueueLeases {
  import opened Prelude
  import opened BackgroundJobs
  import opened JobQueue
  import opened QueueSafety
  import opened QueueAnswers

  /** `claim_next` was asked for `id` by a worker that the queue knows as `owner`. */
  predicate ClaimFor(e: Event, owner: Padded, id: JobId) {
    e.Claim? && e.id == id && e.worker.Strip() == owner
  }

  predicate NoClaimFor(events: seq<Event>, owner: Padded, id: JobId) {
    forall i :: 0 <= i < |events| ==> !ClaimFor(events[i], owner, id)
  }

  /** The same run in which `worker` never says anything about `id`. */
  function Without(events: seq<Event>, worker: Padded, id: JobId): seq<Event> {
    if events == [] then []
    else
      var past, e := Without(events[..|events| - 1], worker, id), events[|events| - 1];
      if e.SentBy(worker, id) then past else past + [e]
  }

  /** What a grant records. */
  lemma GrantNamesTheOwner(rows: Rows, claim: Event)
    requires claim.Claim? && Accepted(rows, claim)
    ensures claim.id in rows && claim.id in Step(rows, claim)
    ensures
      var j, k := rows[claim.id], Step(rows, claim)[claim.id];
      && Due(j, claim.at) && Claimable(j)
      && k.status.Running? && k.leaseOwner == Some(claim.worker.Strip()) && !claim.worker.Blank()
      && k.leaseExpiresAt == Some(claim.at + claim.lease) && claim.at < claim.at + claim.lease
      && k.attempts == j.attempts + 1 && !k.cancelRequested
  {
    StepRow(rows, claim, claim.id);
  }

  // ---- Fencing ----

  ghost predicate Foreign(rows: Rows, id: JobId, worker: Padded) {
    id in rows && rows[id].leaseOwner != Some(worker)
  }

  lemma ForeignStep(rows: Rows, e: Event, id: JobId, worker: Padded)
    requires Foreign(rows, id, worker) && !ClaimFor(e, worker, id)
    ensures Foreign(Step(rows, e), id, worker)
    ensures e.SentBy(worker, id) ==> ReplyTo(rows, e).Err? && Step(rows, e) == rows
  {
    StepRow(rows, e, id);
  }

  /**
   * A worker that does not hold the lease, and is not granted it again, is fenced off: every message it sends
   * about the job is refused, and the table evolves exactly as if none had been sent.
   */
  lemma {:induction false} StaleOwnerIsFenced(rows: Rows, events: seq<Event>, id: JobId, worker: Padded)
    requires Foreign(rows, id, worker) && NoClaimFor(events, worker, id)
    ensures Foreign(Run(rows, events), id, worker)
    ensures Run(rows, events) == Run(rows, Without(events, worker, id))
  {
    if events != [] {
      var past, e := events[..|events| - 1], events[|events| - 1];
      StaleOwnerIsFenced(rows, past, id, worker);
      ForeignStep(Run(rows, past), e, id, worker);
      RunOne(rows, Without(past, worker, id), e);
    }
  }

  /**
   * Whoever reclaims an expired lease under another name fences the previous owner from that moment on, whatever
   * other sessions do, until the previous owner is granted the job again.
   */
  lemma ReclaimFencesThePreviousOwner(rows: Rows, reclaim: Event, events: seq<Event>, stale: Padded, message: Event)
    requires reclaim.Claim? && Accepted(rows, reclaim) && reclaim.worker.Strip() != stale
    requires NoClaimFor(events, stale, reclaim.id)
    requires message.SentBy(stale, reclaim.id)
    ensures Run(Step(rows, reclaim), events) == Run(Step(rows, reclaim), Without(events, stale, reclaim.id))
    ensures ReplyTo(Run(Step(rows, reclaim), events), message).Err?
    ensures Step(Run(Step(rows, reclaim), events), message) == Run(Step(rows, reclaim), events)
  {
    GrantNamesTheOwner(rows, reclaim);
    StaleOwnerIsFenced(Step(rows, reclaim), events, reclaim.id, stale);
    ForeignStep(Run(Step(rows, reclaim), events), message, reclaim.id, stale);
  }

  ghost predicate Lapsed(rows: Rows, id: JobId, worker: Padded, clock: Instant) {
    id in rows && !Owned(rows[id], worker, clock)
  }

  lemma LapsedStep(rows: Rows, e: Event, id: JobId, worker: Padded, clock: Instant)
    requires Lapsed(rows, id, worker, clock) && clock <= e.at && !ClaimFor(e, worker, id)
    ensures Lapsed(Step(rows, e), id, worker, e.at)
    ensures e.SentBy(worker, id) ==> ReplyTo(rows, e).Err? && Step(rows, e) == rows
  {
    StepRow(rows, e, id);
  }

  /**
   * With agreeing clocks a conflict is final.  An owner whose lease has run out is fenced even before anybody
   * reclaims the job, and stays fenced until it is granted the job again.
   */
  lemma {:induction false} ConflictIsFinal(rows: Rows, events: seq<Event>, id: JobId, worker: Padded, clock: Instant)
    requires Lapsed(rows, id, worker, clock) && NoClaimFor(events, worker, id) && Chronological(events)
    requires events != [] ==> clock <= events[0].at
    ensures Run(rows, events) == Run(rows, Without(events, worker, id))
    ensures Lapsed(Run(rows, events), id, worker, if events == [] then clock else events[|events| - 1].at)
  {
    if events != [] {
      var past, e := events[..|events| - 1], events[|events| - 1];
      ConflictIsFinal(rows, past, id, worker, clock);
      LapsedStep(Run(rows, past), e, id, worker, if past == [] then clock else past[|past| - 1].at);
      RunOne(rows, Without(past, worker, id), e);
    }
  }

  /** Somebody was granted `id`, or ended it. */
  ghost predicate TakenOver(rows: Rows, events: seq<Event>, id: JobId) {
    if events == [] then false
    else
      var past, e := events[..|events| - 1], events[|events| - 1];
      TakenOver(rows, past, id) || ((e.Claim? || e.Sweep?) && e.id == id && Accepted(Run(rows, past), e))
  }

  /** The lease that `worker` held until `end`, whether or not it has run out. */
  predicate HeldUntil(j: Job, worker: Padded, end: Instant) {
    j.status.Running? && j.leaseOwner == Some(worker) && j.leaseExpiresAt == Some(end)
  }

  lemma ExpiredRow(j: Job, e: Event, worker: Padded, end: Instant)
    requires HeldUntil(j, worker, end) && end <= e.at && !e.Enqueue? && Refusal(j, e).None?
    requires e.Claim? ==> e.worker.Strip() != worker
    ensures if e.Claim? || e.Sweep? then Next(j, e).leaseOwner != Some(worker) else HeldUntil(Next(j, e), worker, end)
  {
  }

  lemma ExpiredStep(rows: Rows, e: Event, id: JobId, worker: Padded, end: Instant)
    requires id in rows && HeldUntil(rows[id], worker, end) && end <= e.at && !ClaimFor(e, worker, id)
    ensures id in Step(rows, e)
    ensures if (e.Claim? || e.Sweep?) && e.id == id && Accepted(rows, e) then Foreign(Step(rows, e), id, worker)
            else HeldUntil(Step(rows, e)[id], worker, end)
  {
    StepRow(rows, e, id);
    if !e.Enqueue? && e.id == id && Accepted(rows, e) {
      ReplyIsNext(rows[id], e);
      ExpiredRow(rows[id], e, worker, end);
    }
  }

  /** An expired lease keeps the name of its owner exactly until somebody takes the job over. */
  lemma {:induction false} ExpiredLeaseNamesItsOwnerUntilTakenOver(rows: Rows, events: seq<Event>, id: JobId,
                                                                  worker: Padded, end: Instant)
    requires id in rows && HeldUntil(rows[id], worker, end) && NoClaimFor(events, worker, id)
    requires forall i :: 0 <= i < |events| ==> end <= events[i].at
    ensures id in Run(rows, events)
    ensures if TakenOver(rows, events, id) then Foreign(Run(rows, events), id, worker)
            else HeldUntil(Run(rows, events)[id], worker, end)
  {
    if events != [] {
      var past, e := events[..|events| - 1], events[|events| - 1];
      ExpiredLeaseNamesItsOwnerUntilTakenOver(rows, past, id, worker, end);
      if TakenOver(rows, past, id) {
        ForeignStep(Run(rows, past), e, id, worker);
      } else {
        ExpiredStep(Run(rows, past), e, id, worker, end);
      }
    }
  }

  // ---- Exclusivity ----

  /** The only thing another session can do to a live lease is to ask for cancellation. */
  predicate SameButCancellation(j: Job, k: Job) {
    k == j.(cancelRequested := k.cancelRequested, updatedAt := k.updatedAt)
    && (j.cancelRequested ==> k.cancelRequested)
  }

  predicate AllEarlierThan(events: seq<Event>, limit: Instant) {
    forall i :: 0 <= i < |events| ==> events[i].at < limit
  }

  predicate SilentOwner(events: seq<Event>, owner: Padded, id: JobId) {
    forall i :: 0 <= i < |events| ==> !events[i].SentBy(owner, id)
  }

  lemma LiveLeaseRow(j: Job, e: Event, owner: Padded)
    requires j.status.Running? && j.leaseOwner == Some(owner) && j.leaseExpiresAt.Some?
    requires e.at < j.leaseExpiresAt.value && !e.Enqueue? && !(e.OwnerOperation() && e.worker == owner)
    requires Refusal(j, e).None?
    ensures SameButCancellation(j, Next(j, e))
  {
  }

  lemma LiveLeaseStep(rows: Rows, e: Event, id: JobId, owner: Padded)
    requires id in rows && rows[id].status.Running? && rows[id].leaseOwner == Some(owner)
    requires rows[id].leaseExpiresAt.Some? && e.at < rows[id].leaseExpiresAt.value && !e.SentBy(owner, id)
    ensures id in Step(rows, e) && SameButCancellation(rows[id], Step(rows, e)[id])
  {
    StepRow(rows, e, id);
    if Step(rows, e)[id] != rows[id] {
      LiveLeaseRow(rows[id], e, owner);
    }
  }

  /**
   * Until it expires a granted lease is exclusive: whatever the other sessions attempt, the job stays with its
   * owner, in the same attempt, with the same progress and the same expiry.
   */
  lemma {:induction false} LiveLeaseIsExclusive(rows: Rows, events: seq<Event>, id: JobId, owner: Padded)
    requires id in rows && rows[id].status.Running? && rows[id].leaseOwner == Some(owner)
    requires rows[id].leaseExpiresAt.Some? && AllEarlierThan(events, rows[id].leaseExpiresAt.value)
    requires SilentOwner(events, owner, id)
    ensures id in Run(rows, events) && SameButCancellation(rows[id], Run(rows, events)[id])
  {
    if events != [] {
      var past, e := events[..|events| - 1], events[|events| - 1];
      LiveLeaseIsExclusive(rows, past, id, owner);
      LiveLeaseStep(Run(rows, past), e, id, owner);
    }
  }

  /** So between two grants of a job either the first lease ran out or its owner gave it back. */
  lemma GrantsDoNotOverlap(rows: Rows, first: Event, events: seq<Event>, second: Event)
    requires first.Claim? && Accepted(rows, first)
    requires second.Claim? && second.id == first.id
    requires SilentOwner(events, first.worker.Strip(), first.id)
    requires AllEarlierThan(events, first.at + first.lease)
    requires Accepted(Run(Step(rows, first), events), second)
    ensures first.at + first.lease <= second.at
  {
    var granted := Step(rows, first);
    GrantNamesTheOwner(rows, first);
    LiveLeaseIsExclusive(granted, events, first.id, first.worker.Strip());
    GrantNamesTheOwner(Run(granted, events), second);
  }

  /** Nobody asks for the cancellation of the job. */
  predicate NoCancel(events: seq<Event>, id: JobId) {
    forall i :: 0 <= i < |events| ==> !(events[i].Cancel? && events[i].id == id)
  }

  lemma {:induction false} NoRequestAppears(rows: Rows, events: seq<Event>, id: JobId, owner: Padded)
    requires id in rows && rows[id].status.Running? && rows[id].leaseOwner == Some(owner) && !rows[id].cancelRequested
    requires rows[id].leaseExpiresAt.Some? && AllEarlierThan(events, rows[id].leaseExpiresAt.value)
    requires SilentOwner(events, owner, id) && NoCancel(events, id)
    ensures id in Run(rows, events) && !Run(rows, events)[id].cancelRequested
  {
    if events != [] {
      var past, e := events[..|events| - 1], events[|events| - 1];
      NoRequestAppears(rows, past, id, owner);
      LiveLeaseIsExclusive(rows, past, id, owner);
      StepRow(Run(rows, past), e, id);
    }
  }

  /**
   * The job of a worker that dies is recovered: if its owner says nothing more and nobody cancels it, whatever else
   * the sessions do, another claim is accepted from the expiry of the lease on, and not before.
   */
  lemma DeadWorkersJobIsRecovered(rows: Rows, first: Event, events: seq<Event>, second: Event)
    requires TableOk(rows) && first.Claim? && Accepted(rows, first)
    requires rows[first.id].attempts + 1 < rows[first.id].maxAttempts
    requires SilentOwner(events, first.worker.Strip(), first.id) && NoCancel(events, first.id)
    requires AllEarlierThan(events, first.at + first.lease)
    requires second.Claim? && second.id == first.id && 1 <= |second.worker.core| <= 100 && 0 < second.lease
    ensures Accepted(Run(Step(rows, first), events), second) <==> first.at + first.lease <= second.at
  {
    var granted := Step(rows, first);
    ClaimIsAcceptedExactlyWhen(rows, first);
    StepOk(rows, first);
    IdentityIsPermanent(granted, events, first.id);
    LiveLeaseIsExclusive(granted, events, first.id, first.worker.Strip());
    NoRequestAppears(granted, events, first.id, first.worker.Strip());
    ClaimIsAcceptedExactlyWhen(Run(granted, events), second);
  }

  /** When the lease of `owner` ends: `granted` at first, then what its accepted heartbeats extend it to. */
  ghost function LeaseEnd(rows: Rows, events: seq<Event>, id: JobId, owner: Padded, granted: Instant): Instant {
    if events == [] then granted
    else
      var past, e := events[..|events| - 1], events[|events| - 1];
      if e.SentBy(owner, id) && e.Heartbeat? && Accepted(Run(rows, past), e) then e.at + e.lease
      else LeaseEnd(rows, past, id, owner, granted)
  }

  /** Nothing happens after the lease has run out, and the owner does not finish. */
  ghost predicate KeptAlive(rows: Rows, events: seq<Event>, id: JobId, owner: Padded, granted: Instant) {
    events == [] ||
    (var past, e := events[..|events| - 1], events[|events| - 1];
     && KeptAlive(rows, past, id, owner, granted)
     && (e.SentBy(owner, id) ==> e.Heartbeat?)
     && e.at < LeaseEnd(rows, past, id, owner, granted))
  }

  predicate LeasedTo(j: Job, owner: Padded, attempts: int, end: Instant) {
    j.status.Running? && j.leaseOwner == Some(owner) && j.attempts == attempts && j.leaseExpiresAt == Some(end)
  }

  lemma RenewalStep(rows: Rows, e: Event, id: JobId, owner: Padded, end: Instant)
    requires id in rows && LeasedTo(rows[id], owner, rows[id].attempts, end)
    requires e.at < end && (e.SentBy(owner, id) ==> e.Heartbeat?)
    ensures id in Step(rows, e)
    ensures LeasedTo(Step(rows, e)[id], owner, rows[id].attempts,
                     if e.SentBy(owner, id) && Accepted(rows, e) then e.at + e.lease else end)
  {
    if e.SentBy(owner, id) {
      StepRow(rows, e, id);
    } else {
      LiveLeaseStep(rows, e, id, owner);
    }
  }

  /** An owner that renews its lease before each expiry keeps the job, whatever the other sessions attempt. */
  lemma {:induction false} HeartbeatsKeepTheLease(rows: Rows, events: seq<Event>, id: JobId, owner: Padded, end: Instant)
    requires id in rows && LeasedTo(rows[id], owner, rows[id].attempts, end)
    requires KeptAlive(rows, events, id, owner, end)
    ensures id in Run(rows, events)
    ensures LeasedTo(Run(rows, events)[id], owner, rows[id].attempts, LeaseEnd(rows, events, id, owner, end))
  {
    if events != [] {
      var past, e := events[..|events| - 1], events[|events| - 1];
      HeartbeatsKeepTheLease(rows, past, id, owner, end);
      RenewalStep(Run(rows, past), e, id, owner, LeaseEnd(rows, past, id, owner, end));
    }
  }

  // ---- Back-off ----

  lemma WaitingStep(rows: Rows, e: Event, id: JobId)
    requires id in rows && (rows[id].status.Queued? ==> e.at < rows[id].runAfter)
    requires rows[id].status.Queued? || rows[id].status.Cancelled?
    ensures id in Step(rows, e)
    ensures Step(rows, e)[id] == rows[id] || Step(rows, e)[id].status.Cancelled?
  {
    StepRow(rows, e, id);
  }

  /** A queued job waits for its run time: until then it is not claimed, at most cancelled. */
  lemma {:induction false} QueuedJobWaits(rows: Rows, events: seq<Event>, id: JobId)
    requires id in rows && rows[id].status.Queued? && AllEarlierThan(events, rows[id].runAfter)
    ensures id in Run(rows, events)
    ensures Run(rows, events)[id] == rows[id] || Run(rows, events)[id].status.Cancelled?
  {
    if events != [] {
      var past, e := events[..|events| - 1], events[|events| - 1];
      QueuedJobWaits(rows, past, id);
      WaitingStep(Run(rows, past), e, id);
    }
  }

  lemma FailureQueues(rows: Rows, failure: Event)
    requires failure.Fail? && Accepted(rows, failure) && failure.retryable && Claimable(rows[failure.id])
    ensures failure.id in Step(rows, failure)
    ensures
      var j := Step(rows, failure)[failure.id];
      j.status.Queued? && j.runAfter == failure.at + DelayOf(failure.delay) && Claimable(j) && j.progress == 0
  {
    StepRow(rows, failure, failure.id);
  }

  /** After a retryable failure nobody is granted the job before the requested delay has passed. */
  lemma RetryDelayIsRespected(rows: Rows, failure: Event, events: seq<Event>, claim: Event)
    requires failure.Fail? && Accepted(rows, failure) && failure.retryable
    requires Claimable(rows[failure.id])
    requires claim.Claim? && claim.id == failure.id
    requires AllEarlierThan(events, failure.at + DelayOf(failure.delay))
    requires Accepted(Run(Step(rows, failure), events), claim)
    ensures failure.at + DelayOf(failure.delay) <= claim.at
  {
    FailureQueues(rows, failure);
    QueuedJobWaits(Step(rows, failure), events, failure.id);
    GrantNamesTheOwner(Run(Step(rows, failure), events), claim);
  }

  lemma StepSoundIsOk(rows: Rows, e: Event, clock: Instant)
    requires SoundTable(rows, clock) && !e.Enqueue? && Accepted(rows, e)
    ensures RowOk(Step(rows, e)[e.id])
  {
    RowReplyOk(rows[e.id], e);
  }

  /** And from that moment on the job can be claimed: the delay is neither shortened nor lengthened. */
  lemma RetriedJobIsClaimableAfterItsDelay(rows: Rows, failure: Event, claim: Event, clock: Instant)
    requires SoundTable(rows, clock) && clock <= failure.at
    requires failure.Fail? && Accepted(rows, failure) && failure.retryable && Claimable(rows[failure.id])
    requires claim.Claim? && claim.id == failure.id && !ArgumentsRefused(claim) && WellFormed(claim)
    ensures Accepted(Step(rows, failure), claim) <==> failure.at + DelayOf(failure.delay) <= claim.at
  {
    FailureQueues(rows, failure);
    StepSoundIsOk(rows, failure, clock);
    var queued := Step(rows, failure)[failure.id];
    if queued.runAfter <= claim.at {
      GrantRefusedExactlyWhen(queued, claim.worker, claim.lease, claim.at);
    }
  }

  // ---- Attempts ----

  /** How often the job was granted along the run. */
  ghost function Grants(rows: Rows, events: seq<Event>, id: JobId): nat {
    if events == [] then 0
    else
      var past, e := events[..|events| - 1], events[|events| - 1];
      Grants(rows, past, id) + (if e.Claim? && e.id == id && Accepted(Run(rows, past), e) then 1 else 0)
  }

  predicate NoManualRetry(events: seq<Event>, id: JobId) {
    forall i :: 0 <= i < |events| ==> !(events[i].Retry? && events[i].id == id)
  }

  lemma AttemptsStep(rows: Rows, e: Event, id: JobId)
    requires id in rows
    ensures id in Step(rows, e)
    ensures Step(rows, e)[id].attempts ==
            rows[id].attempts + (if e.Claim? && e.id == id && Accepted(rows, e) then 1 else 0)
    ensures !(e.Retry? && e.id == id) ==> Step(rows, e)[id].maxAttempts == rows[id].maxAttempts
  {
    StepRow(rows, e, id);
  }

  /** The attempt counter counts exactly the granted leases; nothing else moves it, in either direction. */
  lemma {:induction false} AttemptsCountGrants(rows: Rows, events: seq<Event>, id: JobId)
    requires id in rows
    ensures id in Run(rows, events)
    ensures Run(rows, events)[id].attempts == rows[id].attempts + Grants(rows, events, id)
    ensures NoManualRetry(events, id) ==> Run(rows, events)[id].maxAttempts == rows[id].maxAttempts
  {
    if events != [] {
      var past, e := events[..|events| - 1], events[|events| - 1];
      AttemptsCountGrants(rows, past, id);
      AttemptsStep(Run(rows, past), e, id);
    }
  }

  /**
   * A job is granted at most as often as its budget says, and never more than ten times however often an
   * operator retries it.
   */
  lemma GrantsAreBounded(history: seq<Event>, enqueue: Event, events: seq<Event>)
    requires enqueue.Enqueue? && Created(Replay(history), enqueue) && enqueue.job.attempts == 0
    ensures
      var grants := Grants(Step(Replay(history), enqueue), events, enqueue.job.jobId);
      && grants <= MAX_ATTEMPTS
      && (NoManualRetry(events, enqueue.job.jobId) ==> grants <= enqueue.job.maxAttempts)
  {
    var rows, id := Step(Replay(history), enqueue), enqueue.job.jobId;
    ReachableTableIsOk(history);
    StepOk(Replay(history), enqueue);
    IdentityIsPermanent(rows, events, id);
    AttemptsCountGrants(rows, events, id);
    assert RowOk(Run(rows, events)[id]);
  }

  /** An operator's retry of a failed job buys exactly one more attempt. */
  lemma ManualRetryBuysOneAttempt(rows: Rows, retry: Event, events: seq<Event>)
    requires TableOk(rows) && retry.Retry? && Accepted(rows, retry) && NoManualRetry(events, retry.id)
    ensures Step(rows, retry)[retry.id].maxAttempts == rows[retry.id].attempts + 1 <= MAX_ATTEMPTS
    ensures Grants(Step(rows, retry), events, retry.id) <= 1
  {
    var later := Step(rows, retry);
    StepRow(rows, retry, retry.id);
    StepOk(rows, retry);
    IdentityIsPermanent(later, events, retry.id);
    AttemptsCountGrants(later, events, retry.id);
    assert RowOk(Run(later, events)[retry.id]);
  }

  lemma ProgressStep(rows: Rows, e: Event, id: JobId)
    requires id in rows && rows[id].progress <= 100 && !(e.Retry? && e.id == id) && !(e.Fail? && e.id == id)
    ensures id in Step(rows, e) && rows[id].progress <= Step(rows, e)[id].progress <= 100
  {
    StepRow(rows, e, id);
  }

  /** Progress only ever falls when the job is queued again, by its owner's failure report or by an operator. */
  lemma {:induction false} ProgressNeverRecedes(rows: Rows, events: seq<Event>, id: JobId)
    requires id in rows && RowOk(rows[id]) && NoManualRetry(events, id)
    requires forall i :: 0 <= i < |events| ==> !(events[i].Fail? && events[i].id == id)
    ensures id in Run(rows, events) && rows[id].progress <= Run(rows, events)[id].progress <= 100
  {
    if events != [] {
      var past, e := events[..|events| - 1], events[|events| - 1];
      ProgressNeverRecedes(rows, past, id);
      ProgressStep(Run(rows, past), e, id);
    }
  }

  // ---- Cancellation and final states ----

  /** The cancellation is recorded: the job is cancelled, or running with the request still pending. */
  predicate Cancelling(j: Job) {
    j.status.Cancelled? || (j.status.Running? && j.cancelRequested)
  }

  lemma CancellingStep(rows: Rows, e: Event, id: JobId)
    requires id in rows && Cancelling(rows[id])
    ensures id in Step(rows, e) && Cancelling(Step(rows, e)[id])
    ensures e.Claim? && e.id == id ==> !Accepted(rows, e)
  {
    StepRow(rows, e, id);
  }

  /**
   * An accepted cancellation of an unfinished job dominates everything after it: no success, failure, retry or
   * new claim follows, and no further attempt is used.
   */
  lemma {:induction false} CancellationDominates(rows: Rows, events: seq<Event>, id: JobId)
    requires id in rows && Cancelling(rows[id])
    ensures id in Run(rows, events) && Cancelling(Run(rows, events)[id])
    ensures Grants(rows, events, id) == 0
  {
    if events != [] {
      var past, e := events[..|events| - 1], events[|events| - 1];
      CancellationDominates(rows, past, id);
      CancellingStep(Run(rows, past), e, id);
    }
  }

  lemma AcceptedCancelIsRecorded(rows: Rows, cancel: Event, events: seq<Event>)
    requires cancel.Cancel? && Accepted(rows, cancel) && !rows[cancel.id].IsTerminal()
    ensures
      var later := Run(Step(rows, cancel), events);
      cancel.id in later && Cancelling(later[cancel.id])
  {
    StepRow(rows, cancel, cancel.id);
    CancellationDominates(Step(rows, cancel), events, cancel.id);
  }

  lemma FinishedStep(rows: Rows, e: Event, id: JobId)
    requires id in rows && rows[id].IsTerminal()
    requires rows[id].status.Failed? ==> !(e.Retry? && e.id == id)
    ensures id in Step(rows, e) && Step(rows, e)[id] == rows[id]
  {
    StepRow(rows, e, id);
  }

  /** A succeeded or cancelled job never changes again; a failed one only through a manual retry. */
  lemma {:induction false} FinishedJobsStay(rows: Rows, events: seq<Event>, id: JobId)
    requires id in rows && rows[id].IsTerminal()
    requires rows[id].status.Failed? ==> NoManualRetry(events, id)
    ensures id in Run(rows, events) && Run(rows, events)[id] == rows[id]
  {
    if events != [] {
      var past, e := events[..|events| - 1], events[|events| - 1];
      FinishedJobsStay(rows, past, id);
      FinishedStep(Run(rows, past), e, id);
    }
  }
}
