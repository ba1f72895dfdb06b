/** One worker cycle: claim a job, run its handler while other sessions work, and report the outcome. */
module JobWorker {
  import opened Prelude
  import opened BackgroundJobs
  import opened JobQueue
  import opened QueueSafety
  import opened QueueLeases
  import opened JobRepositories
  import opened QueueAnswers

  /** One execution of a handler, as far as the queue can see it. */
  datatype HandlerStep =
    | Beat(progress: int, at: Instant, caught: bool)   // a heartbeat, and whether the handler survives its failure
    | Others(events: seq<Event>)                       // what other sessions commit meanwhile

  datatype HandlerEnd =
    | Returns(result: Option<string>)
    | RaisesHandlerError(code: Text, message: Text, retryable: bool)
    | RaisesAnythingElse

  datatype Handler = Handler(steps: seq<HandlerStep>, end: HandlerEnd)

  datatype CycleReply =
    | Idle                          // nothing was due
    | Reported(job: Job)            // the outcome was committed
    | Lost(current: Option<Job>)    // the lease was lost; this is what the job has become
    | Escaped(fault: Fault)         // an exception leaves the cycle
  {
    /** The job that `run_once` returns, if it returns one. */
    function Returned(): Option<Job> {
      match this
      case Reported(job) => Some(job)
      case Lost(current) => current
      case _ => None
    }
  }

  // ---- What a cycle sends to the queue ----

  function StepEvents(s: HandlerStep, id: JobId, worker: Padded, lease: Duration): seq<Event> {
    match s
    case Beat(progress, at, _) => [Heartbeat(id, worker, progress, lease, at)]
    case Others(events) => events
  }

  /** What the first `n` steps commit. */
  function Emitted(steps: seq<HandlerStep>, n: nat, id: JobId, worker: Padded, lease: Duration): seq<Event>
    requires n <= |steps|
  {
    if n == 0 then [] else Emitted(steps, n - 1, id, worker, lease) + StepEvents(steps[n - 1], id, worker, lease)
  }

  /** The first `n` steps took the history from `past` to `history`. */
  predicate Wrote(past: seq<Event>, history: seq<Event>, steps: seq<HandlerStep>, n: nat,
                  id: JobId, worker: Padded, lease: Duration)
    requires n <= |steps|
  {
    history == past + Emitted(steps, n, id, worker, lease)
  }

  lemma WroteNext(past: seq<Event>, history: seq<Event>, steps: seq<HandlerStep>, n: nat,
                  id: JobId, worker: Padded, lease: Duration)
    requires n < |steps| && Wrote(past, history, steps, n, id, worker, lease)
    ensures Wrote(past, history + StepEvents(steps[n], id, worker, lease), steps, n + 1, id, worker, lease)
  {
  }

  /** The step is a heartbeat whose refusal ends the handler. */
  ghost predicate Ends(now: Rows, step: HandlerStep, id: JobId, worker: Padded, lease: Duration) {
    step.Beat? && !step.caught && !Accepted(now, Heartbeat(id, worker, step.progress, lease, step.at))
  }

  /** How many of its steps the handler took, and how it ended. */
  datatype Ending = Ending(done: nat, end: HandlerEnd)

  /** From step `i` on: the handler takes all its steps, or stops at the first refusal it does not survive. */
  ghost function Ran(rows: Rows, handler: Handler, i: nat, id: JobId, worker: Padded, lease: Duration): (e: Ending)
    requires i <= |handler.steps|
    ensures e.done <= |handler.steps|
    decreases |handler.steps| - i
  {
    if i == |handler.steps| then Ending(i, handler.end)
    else if Ends(rows, handler.steps[i], id, worker, lease) then Ending(i + 1, RaisesAnythingElse)
    else Ran(Run(rows, StepEvents(handler.steps[i], id, worker, lease)), handler, i + 1, id, worker, lease)
  }

  lemma RanBeat(rows: Rows, handler: Handler, i: nat, id: JobId, worker: Padded, lease: Duration)
    requires i < |handler.steps| && handler.steps[i].Beat?
    ensures var beat := Heartbeat(id, worker, handler.steps[i].progress, lease, handler.steps[i].at);
      Ran(rows, handler, i, id, worker, lease) ==
        if Accepted(rows, beat) || handler.steps[i].caught then Ran(Step(rows, beat), handler, i + 1, id, worker, lease)
        else Ending(i + 1, RaisesAnythingElse)
  {
    RunOne(rows, [], Heartbeat(id, worker, handler.steps[i].progress, lease, handler.steps[i].at));
  }

  lemma RanOthers(rows: Rows, handler: Handler, i: nat, id: JobId, worker: Padded, lease: Duration)
    requires i < |handler.steps| && handler.steps[i].Others?
    ensures Ran(rows, handler, i, id, worker, lease) ==
            Ran(Run(rows, handler.steps[i].events), handler, i + 1, id, worker, lease)
  {
  }

  /** The report that follows from how the handler ended. */
  function Report(job: Job, worker: Padded, end: HandlerEnd, at: Instant): (e: Event)
    requires 1 <= job.attempts
    ensures e.SentBy(worker, job.jobId) && !e.Heartbeat? && e.at == at
    ensures !ArgumentsRefused(e)
  {
    var delay := RetryDelayAfter(PolicyFor(job.kind), job.attempts);
    match end
    case Returns(result) =>
      if Bounded(result, 200) then Succeed(job.jobId, worker, result, at)
      else Fail(job.jobId, worker, HANDLER_FAILED_CODE, HANDLER_FAILED_MESSAGE, true, delay, at)
    case RaisesHandlerError(code, message, retryable) =>
      Fail(job.jobId, worker, code, message, retryable, if retryable then delay else None, at)
    case RaisesAnythingElse =>
      Fail(job.jobId, worker, HANDLER_FAILED_CODE, HANDLER_FAILED_MESSAGE, true, delay, at)
  }

  const HANDLER_FAILED_CODE := Text(HandlerFailed, 18)
  const HANDLER_FAILED_MESSAGE := Text(HandlerFailed, 29)
  const UNSUPPORTED_KIND_CODE := Text(UnsupportedKind, 20)
  const UNSUPPORTED_KIND_MESSAGE := Text(UnsupportedKind, 45)
  const UNSUPPORTED_VERSION_CODE := Text(UnsupportedPayloadVersion, 31)
  const UNSUPPORTED_VERSION_MESSAGE := Text(UnsupportedPayloadVersion, 47)

  // ---- The cycle ----

  /** The controls that a handler is given. */
  class BackgroundJobContext {
    const repository: JobRepository
    const worker: Padded
    const lease: Duration
    var job: Job

    constructor (repository: JobRepository, job: Job, worker: Padded, lease: Duration)
      ensures this.repository == repository && this.worker == worker && this.lease == lease && this.job == job
    {
      this.repository, this.job, this.worker, this.lease := repository, job, worker, lease;
    }

    method Heartbeat(progress: int, now: Instant) returns (reply: Reply)
      requires repository.Valid()
      modifies this, repository
      ensures repository.Valid()
      ensures var e := JobQueue.Heartbeat(old(job).jobId, worker, progress, lease, now);
        && reply == ReplyTo(old(repository.rows), e)
        && repository.history == old(repository.history) + [e]
        && repository.rows == Step(old(repository.rows), e)
      ensures job == if reply.Ok? then reply.job else old(job)
      ensures job.jobId == old(job).jobId
    {
      ReachableTableIsOk(repository.history);
      reply := repository.Heartbeat(job.jobId, worker, progress, lease, now);
      if reply.Ok? {
        StepKeepsIdentity(old(repository.rows), JobQueue.Heartbeat(job.jobId, worker, progress, lease, now), job.jobId);
        job := reply.job;
      }
    }
  }

  /** What one cycle did: the grant, what happened while the handler ran, and the report that closed it. */
  datatype Cycle =
    | NoGrant
    | Cycle(claim: Event, granted: Rows, done: nat, during: seq<Event>, report: Event, before: Rows)

  /** The bookkeeping of a cycle that was granted a job, against the table and history it started from. */
  ghost predicate Closes(c: Cycle, rows: Rows, worker: Padded, finishAt: Instant) {
    && c.Cycle? && c.claim.Claim? && c.claim.worker == worker && Accepted(rows, c.claim)
    && c.granted == Step(rows, c.claim) && c.before == Run(c.granted, c.during)
    && c.report.SentBy(worker, c.claim.id) && !c.report.Heartbeat? && c.report.at == finishAt
    && c.claim.id in c.granted && c.claim.id in c.before
  }

  /** How the cycle ends, given the row that the report meets. */
  function Answer(j: Job, report: Event): CycleReply
    requires !report.Enqueue?
  {
    match RowReply(j, report)
    case Ok(job) => Reported(job)
    case Err(fault) => if fault.Conflict? then Lost(Some(j)) else Escaped(fault)
  }

  /** The report conflicts exactly when the worker does not own a running lease at the time of the report. */
  lemma LostExactlyWhenNotOwned(j: Job, report: Event)
    requires report.OwnerOperation() && !report.Heartbeat?
    ensures Answer(j, report).Lost? <==> !Owned(j, report.worker, report.at)
  {
  }

  /** The worker has been displaced by the time it reports. */
  ghost predicate Displaced(c: Cycle)
    requires c.Cycle? && c.report.OwnerOperation() && c.claim.Claim? && c.claim.id in c.before
  {
    !Owned(c.before[c.claim.id], c.report.worker, c.report.at)
  }

  /** The worker is misconfigured, or some due row stands in the way. */
  predicate CannotClaim(rows: Rows, locked: set<JobId>, worker: Padded, lease: Duration, now: Instant) {
    || worker.Blank() || lease <= 0
    || exists id :: id in Candidates(rows, locked, now) && Unwritable(rows[id], worker, lease, now)
  }

  /** The grant at the end of a claim, as one transaction on the rows that the sweeps before it left. */
  lemma GrantedRow(p: Pass, job: Job, worker: Padded, lease: Duration, at: Instant, granted: Rows)
    requires job.jobId in p.start && job == AsGranted(p.start[job.jobId], worker, lease, at)
    requires Run(p.start, p.swept) == p.start + p.ended && job.jobId !in p.ended
    requires Accepted(p.start + p.ended, Claim(job.jobId, worker, lease, at))
    requires granted == (p.start + p.ended)[job.jobId := job]
    ensures granted == Step(Run(p.start, p.swept), Claim(job.jobId, worker, lease, at))
  {
    StepRow(p.start + p.ended, Claim(job.jobId, worker, lease, at), job.jobId);
  }

  class BackgroundJobWorker {
    const repository: JobRepository
    const worker: Padded
    const lease: Duration
    const handlers: map<Kind, Handler>

    constructor (repository: JobRepository, handlers: map<Kind, Handler>, worker: Padded, lease: Duration)
      requires 0 < lease
      ensures this.repository == repository && this.handlers == handlers
      ensures this.worker == worker && this.lease == lease
    {
      this.repository, this.handlers, this.worker, this.lease := repository, handlers, worker, lease;
    }

    /** Runs the handler until it ends or an exception of a heartbeat ends it, which takes `done` steps. */
    method RunHandler(context: BackgroundJobContext, handler: Handler) returns (end: HandlerEnd, ghost done: nat)
      requires context.repository == repository && context.worker == worker && context.lease == lease
      requires repository.Valid()
      modifies context, repository
      ensures repository.Valid()
      ensures Ran(old(repository.rows), handler, 0, old(context.job).jobId, worker, lease) == Ending(done, end)
      ensures Wrote(old(repository.history), repository.history, handler.steps, done, old(context.job).jobId, worker, lease)
    {
      ghost var id, past := context.job.jobId, repository.history;
      ghost var ran := Ran(repository.rows, handler, 0, id, worker, lease);
      for i := 0 to |handler.steps|
        invariant repository.Valid() && context.job.jobId == id
        invariant Wrote(past, repository.history, handler.steps, i, id, worker, lease)
        invariant Ran(repository.rows, handler, i, id, worker, lease) == ran
      {
        WroteNext(past, repository.history, handler.steps, i, id, worker, lease);
        var survived := RunStep(context, handler, i);
        if !survived {
          return RaisesAnythingElse, i + 1;
        }
      }
      return handler.end, |handler.steps|;
    }

    /** One step of the handler; `survived` says whether the handler goes on after it. */
    method RunStep(context: BackgroundJobContext, handler: Handler, i: nat) returns (survived: bool)
      requires context.repository == repository && context.worker == worker && context.lease == lease
      requires repository.Valid() && i < |handler.steps|
      modifies context, repository
      ensures repository.Valid() && context.job.jobId == old(context.job).jobId
      ensures repository.history ==
              old(repository.history) + StepEvents(handler.steps[i], old(context.job).jobId, worker, lease)
      ensures Ran(old(repository.rows), handler, i, old(context.job).jobId, worker, lease) ==
              if survived then Ran(repository.rows, handler, i + 1, old(context.job).jobId, worker, lease)
              else Ending(i + 1, RaisesAnythingElse)
    {
      match handler.steps[i] {
        case Beat(progress, at, caught) =>
          RanBeat(repository.rows, handler, i, context.job.jobId, worker, lease);
          var reply := context.Heartbeat(progress, at);
          survived := reply.Ok? || caught;
        case Others(events) =>
          RanOthers(repository.rows, handler, i, context.job.jobId, worker, lease);
          repository.OtherSessions(events);
          survived := true;
      }
    }

    /** Commits the report; a conflict is answered with whatever the job has become. */
    method Send(report: Event) returns (reply: CycleReply)
      requires repository.Valid() && report.OwnerOperation() && !report.Heartbeat? && !ArgumentsRefused(report)
      requires report.id in repository.rows
      modifies repository
      ensures repository.Valid() && repository.history == old(repository.history) + [report]
      ensures reply == Answer(old(repository.rows)[report.id], report)
      ensures repository.rows ==
              if reply.Reported? then old(repository.rows)[report.id := reply.job] else old(repository.rows)
    {
      var answer: Reply;
      if report.Succeed? {
        answer := repository.Succeed(report.id, report.worker, report.result, report.at);
      } else {
        answer := repository.Fail(report.id, report.worker, report.code, report.message, report.retryable,
                                  report.delay, report.at);
      }
      if answer.Ok? {
        reply := Reported(answer.job);
      } else if answer.fault.Conflict? {
        var current := repository.Get(report.id);
        reply := Lost(current);
      } else {
        reply := Escaped(answer.fault);
      }
    }

    /** What is reported: an unsupported job is failed unheard, otherwise the handler's end decides. */
    ghost predicate ProperReport(rows: Rows, job: Job, done: nat, during: seq<Event>, report: Event, at: Instant) {
      if job.payloadVersion !in PolicyFor(job.kind).supportedVersions then
        && during == []
        && report == Fail(job.jobId, worker, UNSUPPORTED_VERSION_CODE, UNSUPPORTED_VERSION_MESSAGE, false, None, at)
      else if job.kind !in handlers then
        && during == []
        && report == Fail(job.jobId, worker, UNSUPPORTED_KIND_CODE, UNSUPPORTED_KIND_MESSAGE, false, None, at)
      else
        var handler := handlers[job.kind];
        var ran := Ran(rows, handler, 0, job.jobId, worker, lease);
        && 1 <= job.attempts && done == ran.done
        && during == Emitted(handler.steps, done, job.jobId, worker, lease)
        && report == Report(job, worker, ran.end, at)
    }

    /** Everything after the claim: the part of the cycle whose conflicts are caught. */
    method Execute(job: Job, finishAt: Instant)
      returns (reply: CycleReply, ghost done: nat, ghost during: seq<Event>, ghost report: Event)
      requires repository.Valid() && job.jobId in repository.rows && 1 <= job.attempts
      modifies repository
      ensures repository.Valid() && ProperReport(old(repository.rows), job, done, during, report, finishAt)
      ensures report.SentBy(worker, job.jobId) && !report.Heartbeat? && report.at == finishAt
      ensures repository.history == old(repository.history) + during + [report]
      ensures var before := Run(old(repository.rows), during);
        && job.jobId in before
        && reply == Answer(before[job.jobId], report)
        && repository.rows == if reply.Reported? then before[job.jobId := reply.job] else before
    {
      ghost var past := repository.history;
      ReachableTableIsOk(past);
      during, done := [], 0;
      var context := new BackgroundJobContext(repository, job, worker, lease);
      var policy := PolicyFor(job.kind);
      var outcome: Event;
      if job.payloadVersion !in policy.supportedVersions {
        outcome := Fail(job.jobId, worker, UNSUPPORTED_VERSION_CODE, UNSUPPORTED_VERSION_MESSAGE, false, None, finishAt);
      } else if job.kind !in handlers {
        outcome := Fail(job.jobId, worker, UNSUPPORTED_KIND_CODE, UNSUPPORTED_KIND_MESSAGE, false, None, finishAt);
      } else {
        var end: HandlerEnd;
        var handler := handlers[job.kind];
        end, done := RunHandler(context, handler);
        during := Emitted(handler.steps, done, job.jobId, worker, lease);
        outcome := Report(job, worker, end, finishAt);
      }
      RunConcat(map[], past, during);
      IdentityIsPermanent(old(repository.rows), during, job.jobId);
      report := outcome;
      reply := Send(outcome);
    }

    /**
     * `claimAt` and `finishAt` are the two readings of the clock; a caller that passes a time fixes both.  Other
     * sessions may commit between two iterations of the claim, as `pauses` say, and while the handler runs.
     */
    method RunOnce(claimAt: Instant, finishAt: Instant, locked: set<JobId>, pauses: seq<Pause>)
      returns (reply: CycleReply, ghost p: Pass, ghost cycle: Cycle)
      requires repository.Valid()
      modifies repository
      ensures repository.Valid() && |p.ids| <= |pauses| && OnlySweeps(p.swept, claimAt)
      ensures Paused(old(repository.rows), p.ids, p.start, locked, LocksAfter(locked, pauses, |p.ids|), pauses, claimAt)
      ensures cycle.NoGrant? ==>
        && repository.history == old(repository.history) + PastOf(p.ids, pauses, claimAt) + p.swept
        && (if reply.Idle? then NothingToClaim(p.start, LocksAfter(locked, pauses, |p.ids|), claimAt)
            else reply.Escaped? && CannotClaim(p.start, LocksAfter(locked, pauses, |p.ids|), worker, lease, claimAt))
      ensures cycle.Cycle? ==>
        && Closes(cycle, Run(p.start, p.swept), worker, finishAt)
        && FirstRunnable(p.start, LocksAfter(locked, pauses, |p.ids|), claimAt, cycle.claim.id)
        && cycle.claim.lease == lease && cycle.claim.at == claimAt
        && ProperReport(cycle.granted, cycle.granted[cycle.claim.id], cycle.done, cycle.during, cycle.report, finishAt)
        && repository.history == old(repository.history) + PastOf(p.ids, pauses, claimAt) + p.swept
                                 + [cycle.claim] + cycle.during + [cycle.report]
        && reply == Answer(cycle.before[cycle.claim.id], cycle.report) && (reply.Lost? <==> Displaced(cycle))
        && repository.rows == (if reply.Reported? then cycle.before[cycle.claim.id := reply.job] else cycle.before)
    {
      reply, cycle := Idle, NoGrant;
      var claim: ClaimReply;
      claim, p := repository.ClaimNext(worker, lease, claimAt, locked, pauses);
      ClaimAnswers(claim, p, LocksAfter(locked, pauses, |p.ids|), worker, lease, claimAt);
      if claim.Raised? {
        reply := Escaped(claim.fault);
      } else if claim.Granted? {
        var job := claim.job;
        if job.cancelRequested {
          assert false;
        }
        ghost var grant := Claim(job.jobId, worker, lease, claimAt);
        ghost var granted := repository.rows;
        GrantedRow(p, job, worker, lease, claimAt, granted);
        ghost var done, during, report;
        reply, done, during, report := Execute(job, finishAt);
        LostExactlyWhenNotOwned(Run(granted, during)[job.jobId], report);
        cycle := Cycle(grant, granted, done, during, report, Run(granted, during));
      }
    }
  }
}
