/** What worker cycles guarantee when other sessions interfere with them. */
module WorkerSafety {
  import opened Prelude
  import opened BackgroundJobs
  import opened JobQueue
  import opened QueueSafety
  import opened QueueAnswers
  import opened QueueLeases
  import opened JobWorker

  /**
   * A cycle whose job was reclaimed by another worker while the handler ran changes nothing any more: the table
   * evolves as if the handler had sent no further heartbeat, and the report conflicts, whatever the handler did and
   * however it ended.
   */
  lemma ReclaimedCycleIsLost(c: Cycle, rows: Rows, worker: Padded, finishAt: Instant,
                             early: seq<Event>, reclaim: Event, late: seq<Event>)
    requires Closes(c, rows, worker, finishAt) && c.during == early + [reclaim] + late
    requires reclaim.Claim? && reclaim.id == c.claim.id && reclaim.worker.Strip() != worker
    requires Accepted(Run(c.granted, early), reclaim) && NoClaimFor(late, worker, c.claim.id)
    ensures c.before == Run(Run(c.granted, early + [reclaim]), Without(late, worker, c.claim.id))
    ensures Displaced(c) && Answer(c.before[c.claim.id], c.report) == Lost(Some(c.before[c.claim.id]))
    ensures Step(c.before, c.report) == c.before
  {
    var id, granted := c.claim.id, c.granted;
    RunConcat(granted, early + [reclaim], late);
    RunOne(granted, early, reclaim);
    GrantNamesTheOwner(Run(granted, early), reclaim);
    StaleOwnerIsFenced(Run(granted, early + [reclaim]), late, id, worker);
    ForeignStep(c.before, c.report, id, worker);
  }

  /**
   * A heartbeat that conflicts inside the handler loses the cycle, even when the handler or the catch-all around
   * it turns the conflict into an ordinary failure: with a clock that moves on, that report conflicts as well.
   */
  lemma SwallowedConflictLosesTheCycle(c: Cycle, rows: Rows, worker: Padded, finishAt: Instant,
                                       early: seq<Event>, beat: Event, late: seq<Event>)
    requires Closes(c, rows, worker, finishAt) && c.during == early + [beat] + late
    requires beat.Heartbeat? && beat.SentBy(worker, c.claim.id)
    requires ReplyTo(Run(c.granted, early), beat) == Err(Conflict)
    requires NoClaimFor(late, worker, c.claim.id) && Chronological([beat] + late + [c.report])
    ensures Displaced(c)
  {
    var id, granted := c.claim.id, c.granted;
    var times := [beat] + late + [c.report];
    GrantNamesTheOwner(rows, c.claim);
    AttemptsCountGrants(granted, early, id);
    RunConcat(granted, early + [beat], late);
    RunOne(granted, early, beat);
    assert Lapsed(Run(granted, early + [beat]), id, worker, beat.at);
    assert forall i :: 0 <= i < |late| ==> late[i] == times[i + 1];
    assert times[0] == beat && times[|late| + 1] == c.report;
    ConflictIsFinal(Run(granted, early + [beat]), late, id, worker, beat.at);
  }

  /**
   * The guarantee needs the clock to move on.  A cycle whose time is fixed by its caller reports at the time of
   * its claim, so a report after a conflicting heartbeat is still accepted whenever nobody reclaimed the job.
   */
  lemma FrozenClockReopensTheLease(j: Job, beat: Event, report: Event)
    requires beat.Heartbeat? && j.leaseOwner == Some(beat.worker)
    requires j.status.Running? && j.leaseExpiresAt.Some?
    requires report.OwnerOperation() && !report.Heartbeat? && report.worker == beat.worker
    requires RowReply(j, beat) == Err(Conflict)
    ensures !Answer(j, report).Lost? <==> report.at < j.leaseExpiresAt.value
  {
    LostExactlyWhenNotOwned(j, report);
  }

  /**
   * For a whole cycle: once a heartbeat has met its own expired lease, the cycle is lost exactly when the report
   * comes after that expiry, or somebody took the job over meanwhile.
   */
  lemma ExpiredCycleIsLostExactlyWhen(c: Cycle, rows: Rows, worker: Padded, finishAt: Instant,
                                      early: seq<Event>, beat: Event, late: seq<Event>, end: Instant)
    requires Closes(c, rows, worker, finishAt) && c.during == early + [beat] + late
    requires beat.Heartbeat? && beat.SentBy(worker, c.claim.id) && c.claim.id in Run(c.granted, early)
    requires HeldUntil(Run(c.granted, early)[c.claim.id], worker, end) && end <= beat.at
    requires NoClaimFor(late, worker, c.claim.id) && forall i :: 0 <= i < |late| ==> end <= late[i].at
    ensures Displaced(c) <==> end <= finishAt || TakenOver(Run(c.granted, early + [beat]), late, c.claim.id)
  {
    var id, granted := c.claim.id, c.granted;
    RunConcat(granted, early + [beat], late);
    RunOne(granted, early, beat);
    LapsedStep(Run(granted, early), beat, id, worker, end);
    ExpiredLeaseNamesItsOwnerUntilTakenOver(Run(granted, early + [beat]), late, id, worker, end);
  }

  lemma GrantedJob(rows: Rows, claim: Event)
    requires claim.Claim? && Accepted(rows, claim) && claim.worker.Trimmed()
    requires rows[claim.id].jobId == claim.id && 0 <= rows[claim.id].attempts
    ensures
      var j, k := rows[claim.id], Step(rows, claim)[claim.id];
      && HeldUntil(k, claim.worker, claim.at + claim.lease) && claim.at < claim.at + claim.lease
      && k.jobId == claim.id && k.kind == j.kind && k.payloadVersion == j.payloadVersion && 1 <= k.attempts
  {
    GrantNamesTheOwner(rows, claim);
    StepRow(rows, claim, claim.id);
  }

  /** The conflict of one uncaught heartbeat is all that such a handler leaves behind. */
  lemma ExpiredBeatEndsTheHandler(granted: Rows, handler: Handler, id: JobId, worker: Padded, lease: Duration,
                                  progress: int, at: Instant)
    requires id in granted && !Owned(granted[id], worker, at) && 0 < lease
    requires handler.steps == [Beat(progress, at, false)]
    ensures
      var beat := Heartbeat(id, worker, progress, lease, at);
      && ReplyTo(granted, beat) == Err(Conflict) && Run(granted, [beat]) == granted
      && Ran(granted, handler, 0, id, worker, lease) == Ending(1, RaisesAnythingElse)
      && Emitted(handler.steps, 1, id, worker, lease) == [beat]
  {
    var beat := Heartbeat(id, worker, progress, lease, at);
    RunOne(granted, [], beat);
    assert [] + [beat] == [beat];
    assert Emitted(handler.steps, 0, id, worker, lease) == [];
  }

  function FrozenCycle(rows: Rows, claim: Event, granted: Rows, progress: int): Cycle
    requires claim.Claim? && claim.id in granted && 1 <= granted[claim.id].attempts
  {
    Cycle(claim, granted, 1, [Heartbeat(claim.id, claim.worker, progress, claim.lease, claim.at + claim.lease)],
          Report(granted[claim.id], claim.worker, RaisesAnythingElse, claim.at), granted)
  }

  lemma FrozenCycleCloses(rows: Rows, claim: Event, granted: Rows, progress: int)
    requires claim.Claim? && Accepted(rows, claim) && granted == Step(rows, claim) && claim.id in granted
    requires HeldUntil(granted[claim.id], claim.worker, claim.at + claim.lease) && claim.at < claim.at + claim.lease
    requires 1 <= granted[claim.id].attempts && granted[claim.id].jobId == claim.id
    requires Run(granted, FrozenCycle(rows, claim, granted, progress).during) == granted
    ensures var c := FrozenCycle(rows, claim, granted, progress);
      Closes(c, rows, claim.worker, claim.at) && !Displaced(c)
  {
  }

  lemma FrozenReportIsProper(w: BackgroundJobWorker, granted: Rows, job: Job, during: seq<Event>, report: Event, at: Instant)
    requires 1 <= job.attempts
    requires job.payloadVersion in PolicyFor(job.kind).supportedVersions && job.kind in w.handlers
    requires |w.handlers[job.kind].steps| == 1
    requires Ran(granted, w.handlers[job.kind], 0, job.jobId, w.worker, w.lease) == Ending(1, RaisesAnythingElse)
    requires during == Emitted(w.handlers[job.kind].steps, 1, job.jobId, w.worker, w.lease)
    requires report == Report(job, w.worker, RaisesAnythingElse, at)
    ensures w.ProperReport(granted, job, 1, during, report, at)
  {
  }

  /** The worker has a handler for the job that beats once, when the lease has just run out, and survives nothing. */
  predicate BeatsTooLate(w: BackgroundJobWorker, j: Job, progress: int, at: Instant) {
    && j.payloadVersion in PolicyFor(j.kind).supportedVersions && j.kind in w.handlers
    && w.handlers[j.kind].steps == [Beat(progress, at, false)]
  }

  /**
   * Such a cycle exists whenever a worker with a trimmed id is granted a job at a fixed time: its handler beats once
   * the lease has run out, the conflict becomes a failure of the handler, and that failure is reported as the owner's.
   */
  lemma FrozenCycleReports(w: BackgroundJobWorker, rows: Rows, claim: Event, granted: Rows, progress: int)
    requires claim.Claim? && Accepted(rows, claim) && claim.worker == w.worker && claim.lease == w.lease
    requires w.worker.Trimmed() && rows[claim.id].jobId == claim.id && 0 <= rows[claim.id].attempts
    requires granted == Step(rows, claim) && BeatsTooLate(w, rows[claim.id], progress, claim.at + claim.lease)
    ensures claim.id in granted && 1 <= granted[claim.id].attempts
    ensures
      var c := FrozenCycle(rows, claim, granted, progress);
      && Closes(c, rows, w.worker, claim.at) && !Displaced(c)
      && ReplyTo(granted, c.during[0]) == Err(Conflict)
      && w.ProperReport(granted, granted[claim.id], c.done, c.during, c.report, claim.at)
  {
    GrantNamesTheOwner(rows, claim);
    GrantedJob(rows, claim);
    var job := granted[claim.id];
    ExpiredBeatEndsTheHandler(granted, w.handlers[job.kind], claim.id, w.worker, w.lease, progress, claim.at + claim.lease);
    var c := FrozenCycle(rows, claim, granted, progress);
    FrozenCycleCloses(rows, claim, granted, progress);
    FrozenReportIsProper(w, granted, job, c.during, c.report, claim.at);
  }

  /**
   * The queue records the trimmed worker id but compares the owner with the id as given.  A worker whose id
   * carries outer white space is therefore fenced off from its own job from the first moment: no cycle of it ever
   * reports an outcome.
   */
  lemma PaddedWorkerNeverReports(c: Cycle, rows: Rows, worker: Padded, finishAt: Instant)
    requires Closes(c, rows, worker, finishAt) && !worker.Trimmed()
    ensures Displaced(c)
  {
    GrantNamesTheOwner(rows, c.claim);
    assert NoClaimFor(c.during, worker, c.claim.id);
    StaleOwnerIsFenced(c.granted, c.during, c.claim.id, worker);
  }

  lemma OwnerStaysOwner(granted: Rows, id: JobId, owner: Padded, end: Instant, during: seq<Event>, finishAt: Instant)
    requires id in granted && LeasedTo(granted[id], owner, granted[id].attempts, end)
    requires KeptAlive(granted, during, id, owner, end) && finishAt < LeaseEnd(granted, during, id, owner, end)
    ensures id in Run(granted, during) && Owned(Run(granted, during)[id], owner, finishAt)
  {
    HeartbeatsKeepTheLease(granted, during, id, owner, end);
  }

  /**
   * And that is the only way to lose a cycle that is kept alive: if the lease is renewed before each expiry and
   * the report comes before the last one, the cycle reports exactly when the worker id is trimmed.
   */
  lemma KeptAliveCycleIsLostExactlyWhenPadded(c: Cycle, rows: Rows, worker: Padded, finishAt: Instant)
    requires Closes(c, rows, worker, finishAt)
    requires KeptAlive(c.granted, c.during, c.claim.id, worker, c.claim.at + c.claim.lease)
    requires finishAt < LeaseEnd(c.granted, c.during, c.claim.id, worker, c.claim.at + c.claim.lease)
    ensures Displaced(c) <==> !worker.Trimmed()
  {
    if worker.Trimmed() {
      GrantNamesTheOwner(rows, c.claim);
      OwnerStaysOwner(c.granted, c.claim.id, worker, c.claim.at + c.claim.lease, c.during, finishAt);
    } else {
      PaddedWorkerNeverReports(c, rows, worker, finishAt);
    }
  }

  /** The delay before the next attempt, which only the import of market data does without. */
  function DelayAfter(kind: Kind, attempts: int): Duration {
    if kind.MarketDataImport? then 0 else if attempts == 1 then 5_000_000 else if attempts == 2 then 30_000_000 else 0
  }

  /** The code and the message that are kept of a handler's end other than a proper return. */
  function Wordings(end: HandlerEnd): (Text, Text) {
    if end.RaisesHandlerError? then (end.code, Text(end.message.wording, Min(500, end.message.length)))
    else (Text(HandlerFailed, 18), Text(HandlerFailed, 29))
  }

  /** How the queue records an outcome that it accepts. */
  predicate Recorded(j: Job, granted: Job, end: HandlerEnd, at: Instant, k: Job) {
    if j.cancelRequested then CancelledAt(j, k, at)
    else if end.Returns? && Bounded(end.result, 200) then
      && k.status.Succeeded? && EndedAt(j, k, at) && k.progress == 100 && k.resultReference == end.result
      && k.errorCode.None? && k.errorMessage.None?
    else if (end.RaisesHandlerError? ==> end.retryable) && j.attempts < j.maxAttempts then
      && k.status.Queued? && Unleased(k) && k.progress == 0 && k.updatedAt == at && k.NoOutcome()
      && SameOrigin(j, k) && k.attempts == j.attempts && k.maxAttempts == j.maxAttempts
      && k.runAfter == at + DelayAfter(granted.kind, granted.attempts)
    else FailedAt(j, k, at, Wordings(end).0, Wordings(end).1)
  }

  /**
   * With agreeing clocks the report of an owner is recorded as the handler's end demands; the one exception that
   * leaves the cycle is a final failure whose error code is longer than the field admits.
   */
  lemma OwnedReportIsRecorded(j: Job, granted: Job, worker: Padded, end: HandlerEnd, at: Instant, clock: Instant)
    requires SoundRow(j, clock) && clock <= at && Owned(j, worker, at) && 1 <= granted.attempts
    requires end.RaisesHandlerError? ==> 1 <= end.code.length && 1 <= end.message.length
    ensures
      var finallyFails := end.RaisesHandlerError? && !j.cancelRequested
                          && !(end.retryable && j.attempts < j.maxAttempts);
      match Answer(j, Report(granted, worker, end, at))
      case Reported(k) => !(finallyFails && 100 < end.code.length) && Recorded(j, granted, end, at, k)
      case Escaped(fault) => finallyFails && 100 < end.code.length && fault == Rejected
      case _ => false
  {
    var report := Report(granted, worker, end, at);
    if WellFormed(report) {
      OwnerClean(j, report, clock);
      ReplyIsNextIfOk(j, report);
    } else {
      assert report.Fail? && 100 < report.code.length;
    }
  }

  lemma ReplyIsNextIfOk(j: Job, e: Event)
    requires !e.Enqueue?
    ensures RowReply(j, e).Ok? ==> RowReply(j, e).job == Next(j, e)
  {
    if RowReply(j, e).Ok? { ReplyIsNext(j, e); }
  }
}
