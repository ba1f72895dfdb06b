/** What every reachable job table satisfies, whatever the interleaving of sessions. */
module QueueSafety {
  import opened Prelude
  import opened BackgroundJobs
  import opened JobQueue

  // ---- Lifecycle and uniqueness ----

  ghost predicate TableOk(rows: Rows) {
    && (forall id :: id in rows ==> rows[id].jobId == id && RowOk(rows[id]))
    && (forall a, b :: a in rows && b in rows && SameKey(rows[a], rows[b]) ==> a == b)
  }

  predicate SameIdentity(j: Job, k: Job) {
    && k.jobId == j.jobId && k.kind == j.kind && k.idempotencyKey == j.idempotencyKey
    && k.payload == j.payload && k.createdAt == j.createdAt
  }

  lemma NextKeepsIdentity(j: Job, e: Event)
    requires !e.Enqueue?
    ensures SameIdentity(j, Next(j, e))
  {
  }

  lemma ReplyIsNext(j: Job, e: Event)
    requires !e.Enqueue? && RowReply(j, e).Ok?
    ensures Refusal(j, e).None? && RowReply(j, e).job == Next(j, e)
  {
  }

  /** The write that skips validation needs none: the table's own checks make it a valid job. */
  lemma ExhaustedIsValid(j: Job, at: Instant)
    requires RowOk(j) && Due(j, at) && TableChecks(AsExhausted(j, at))
    ensures Valid(AsExhausted(j, at))
  {
  }

  lemma RowReplyOk(j: Job, e: Event)
    requires RowOk(j) && !e.Enqueue? && RowReply(j, e).Ok?
    ensures RowOk(RowReply(j, e).job)
  {
    if e.Sweep? && !j.cancelRequested {
      ExhaustedIsValid(j, e.at);
    }
  }

  /** An accepted transaction writes `Next` into its own row and nothing anywhere else. */
  lemma StepRow(rows: Rows, e: Event, id: JobId)
    requires id in rows
    ensures id in Step(rows, e)
    ensures Step(rows, e)[id] == rows[id] ||
            (!e.Enqueue? && e.id == id && !ArgumentsRefused(e) && Accepted(rows, e)
             && Refusal(rows[id], e).None? && Step(rows, e)[id] == Next(rows[id], e))
    ensures !e.Enqueue? && e.id == id && Accepted(rows, e) ==> Step(rows, e)[id] == Next(rows[id], e)
  {
    if !e.Enqueue? && e.id == id && Accepted(rows, e) {
      ReplyIsNext(rows[id], e);
    }
  }

  /** Replacing a row by one with the same identity keeps the table consistent. */
  lemma UpdateOk(rows: Rows, id: JobId, k: Job)
    requires TableOk(rows) && id in rows && RowOk(k)
    requires k.jobId == id && k.kind == rows[id].kind && k.idempotencyKey == rows[id].idempotencyKey
    ensures TableOk(rows[id := k])
  {
    forall a, b | a in rows && b in rows && SameKey(rows[id := k][a], rows[id := k][b])
      ensures a == b
    {
      assert SameKey(rows[a], rows[b]);
    }
  }

  lemma InsertOk(rows: Rows, j: Job)
    requires TableOk(rows) && RowOk(j) && j.jobId !in rows && !KeyTaken(rows, j)
    ensures TableOk(rows[j.jobId := j])
  {
    forall id | id in rows
      ensures !SameKey(j, rows[id]) && !SameKey(rows[id], j)
    {
    }
  }

  lemma StepOk(rows: Rows, e: Event)
    requires TableOk(rows)
    ensures TableOk(Step(rows, e))
  {
    if !Accepted(rows, e) {
    } else if e.Enqueue? {
      if !KeyTaken(rows, e.job) {
        InsertOk(rows, e.job);
      }
    } else {
      var k := RowReply(rows[e.id], e).job;
      RowReplyOk(rows[e.id], e);
      ReplyIsNext(rows[e.id], e);
      NextKeepsIdentity(rows[e.id], e);
      UpdateOk(rows, e.id, k);
    }
  }

  /**
   * Every row of every reachable table passes the whole lifecycle validator and every table check, and no two
   * jobs share a key; for arbitrary enqueued jobs and arbitrary, even receding, clocks.
   */
  lemma {:induction false} ReachableTableIsOk(history: seq<Event>)
    ensures TableOk(Replay(history))
  {
    if history != [] {
      ReachableTableIsOk(history[..|history| - 1]);
      StepOk(Replay(history[..|history| - 1]), history[|history| - 1]);
    }
  }

  // ---- No internal failure ----

  /** Events as the service itself produces them: built jobs, bounded text. */
  predicate WellFormed(e: Event) {
    match e
    case Enqueue(job, at) => FreshlyBuilt(job) && job.createdAt <= at
    case Claim(_, worker, _, _) => |worker.core| <= 100
    case Succeed(_, _, result, _) => Bounded(result, 200)
    case Fail(_, _, code, message, _, _, _) => 1 <= code.length <= 100 && 1 <= message.length
    case _ => true
  }

  predicate AllWellFormed(events: seq<Event>) {
    forall i :: 0 <= i < |events| ==> WellFormed(events[i])
  }

  predicate SoundRow(j: Job, clock: Instant) {
    && RowOk(j) && j.updatedAt <= clock
    && (j.startedAt.Some? ==> j.startedAt.value <= j.updatedAt)
    && (j.status.Queued? ==> j.progress == 0 && Claimable(j))
  }

  ghost predicate SoundTable(rows: Rows, clock: Instant) {
    forall id :: id in rows ==> SoundRow(rows[id], clock)
  }

  predicate Clean(reply: Reply, clock: Instant) {
    if reply.Ok? then SoundRow(reply.job, clock) else !reply.fault.Rejected? && !reply.fault.Integrity?
  }

  lemma SweepClean(j: Job, e: Event, clock: Instant)
    requires SoundRow(j, clock) && clock <= e.at && e.Sweep? && Refusal(j, e).None?
    ensures Clean(RowReply(j, e), e.at)
  {
  }

  lemma ClaimClean(j: Job, e: Event, clock: Instant)
    requires SoundRow(j, clock) && clock <= e.at && WellFormed(e) && !ArgumentsRefused(e)
    requires e.Claim? && Refusal(j, e).None?
    ensures Clean(RowReply(j, e), e.at)
  {
  }

  lemma OwnerClean(j: Job, e: Event, clock: Instant)
    requires SoundRow(j, clock) && clock <= e.at && WellFormed(e) && !ArgumentsRefused(e)
    requires e.OwnerOperation() && Refusal(j, e).None?
    ensures Clean(RowReply(j, e), e.at)
  {
  }

  lemma OperatorClean(j: Job, e: Event, clock: Instant)
    requires SoundRow(j, clock) && clock <= e.at
    requires (e.Cancel? || e.Retry?) && Refusal(j, e).None?
    ensures Clean(RowReply(j, e), e.at)
  {
  }

  lemma RowReplySound(j: Job, e: Event, clock: Instant)
    requires !e.Enqueue? && WellFormed(e) && !ArgumentsRefused(e)
    requires SoundRow(j, clock) && clock <= e.at
    ensures Clean(RowReply(j, e), e.at)
  {
    if Refusal(j, e).None? {
      if e.OwnerOperation() {
        OwnerClean(j, e, clock);
      } else if e.Cancel? || e.Retry? {
        OperatorClean(j, e, clock);
      } else if e.Sweep? {
        SweepClean(j, e, clock);
      } else {
        ClaimClean(j, e, clock);
      }
    }
  }

  lemma SoundLater(rows: Rows, clock: Instant, later: Instant)
    requires SoundTable(rows, clock) && clock <= later
    ensures SoundTable(rows, later)
  {
  }

  lemma StepSound(rows: Rows, e: Event, clock: Instant)
    requires SoundTable(rows, clock) && clock <= e.at && WellFormed(e)
    ensures ReplyTo(rows, e) != Err(Rejected) && ReplyTo(rows, e) != Err(Integrity)
    ensures SoundTable(Step(rows, e), e.at)
  {
    SoundLater(rows, clock, e.at);
    if !e.Enqueue? && e.id in rows && !ArgumentsRefused(e) {
      RowReplySound(rows[e.id], e, clock);
    }
  }

  lemma {:induction false} ReachableTableIsSound(history: seq<Event>, clock: Instant)
    requires Chronological(history) && AllWellFormed(history)
    requires history != [] ==> history[|history| - 1].at <= clock
    ensures SoundTable(Replay(history), clock)
  {
    if history != [] {
      var past, last := history[..|history| - 1], history[|history| - 1];
      ReachableTableIsSound(past, last.at);
      StepSound(Replay(past), last, last.at);
      SoundLater(Replay(history), last.at, clock);
    }
  }

  /**
   * With built jobs, bounded text and agreeing clocks no operation is ever refused by the validator or by the
   * table: what `claim_next` or a worker may still see is a lost lease, a bad argument or a missing job.
   */
  lemma NoInternalFault(history: seq<Event>, e: Event)
    requires Chronological(history + [e]) && AllWellFormed(history + [e])
    ensures ReplyTo(Replay(history), e) != Err(Rejected)
    ensures ReplyTo(Replay(history), e) != Err(Integrity)
  {
    var all := history + [e];
    assert forall i :: 0 <= i < |history| ==> history[i] == all[i];
    assert all[|history|] == e;
    ReachableTableIsSound(history, e.at);
    StepSound(Replay(history), e, e.at);
  }

  /**
   * Outside those assumptions a due row can be impossible to grant: exactly when it was enqueued with full
   * progress, claimed before it was created, or claimed by a worker whose id is too long for its field.
   * `claim_next` then raises instead of passing the row by.
   */
  lemma GrantRefusedExactlyWhen(j: Job, worker: Padded, lease: Duration, at: Instant)
    requires RowOk(j) && Due(j, at) && Claimable(j) && !worker.Blank()
    ensures Committed(AsGranted(j, worker, lease, at)) == Err(Rejected) <==>
            j.progress == 100 || at < j.createdAt || 100 < |worker.core|
    ensures Committed(AsGranted(j, worker, lease, at)) != Err(Integrity)
  {
    var k := AsGranted(j, worker, lease, at);
    assert FieldsValid(k) <==> |worker.core| <= 100;
    assert LifecycleValid(k) <==> j.progress != 100 && j.createdAt <= at;
    assert LifecycleValid(k) ==> TableChecks(k);
  }

  /** A job with full progress can be enqueued beside any other jobs, and cannot be claimed as it is. */
  lemma FullProgressCanBeEnqueued(rows: Rows, j: Job, claim: Event)
    requires TableOk(rows) && RowOk(j) && j.status.Queued? && j.progress == 100
    requires j.jobId !in rows && !KeyTaken(rows, j) && claim.Claim? && claim.id == j.jobId
    ensures Step(rows, Enqueue(j, j.createdAt)) == rows[j.jobId := j] && TableOk(rows[j.jobId := j])
    ensures !Accepted(rows[j.jobId := j], claim)
  {
    InsertOk(rows, j);
    assert !LifecycleValid(AsGranted(j, claim.worker, claim.lease, claim.at));
  }

  /** No run grants the job: it is cancelled or will be, has no attempt left for good, or is refused by the validator. */
  predicate Ungrantable(j: Job) {
    || j.status.Cancelled?
    || j.attempts == MAX_ATTEMPTS
    || (j.status.Queued? && j.progress == 100 && (j.cancelRequested || j.attempts < j.maxAttempts))
  }

  lemma UngrantableRow(j: Job, e: Event)
    requires RowOk(j) && Ungrantable(j) && !e.Enqueue? && RowReply(j, e).Ok?
    ensures !e.Claim? && Ungrantable(Next(j, e))
    ensures j.status.Cancelled? || (j.status.Queued? && j.attempts < j.maxAttempts) ==>
      Next(j, e) == j || Next(j, e).status.Cancelled?
  {
  }

  /** The row of `id` has been `j`, and can be granted no more. */
  ghost predicate Stuck(rows: Rows, id: JobId, j: Job) {
    && TableOk(rows) && id in rows && Ungrantable(rows[id])
    && (j.status.Queued? && j.attempts < j.maxAttempts ==> rows[id] == j || rows[id].status.Cancelled?)
  }

  lemma StuckStep(rows: Rows, e: Event, id: JobId, j: Job)
    requires Stuck(rows, id, j)
    ensures Stuck(Step(rows, e), id, j)
    ensures e.Claim? && e.id == id ==> !Accepted(rows, e)
  {
    StepOk(rows, e);
    StepRow(rows, e, id);
    if !e.Enqueue? && e.id == id && Accepted(rows, e) {
      UngrantableRow(rows[id], e);
    }
  }

  lemma {:induction false} StuckForGood(rows: Rows, events: seq<Event>, id: JobId, j: Job)
    requires Stuck(rows, id, j)
    ensures Stuck(Run(rows, events), id, j)
  {
    if events != [] {
      StuckForGood(rows, events[..|events| - 1], id, j);
      StuckStep(Run(rows, events[..|events| - 1]), events[|events| - 1], id, j);
    }
  }

  /**
   * A queued job with full progress and attempts left is never claimed, whatever any session does: it stays as it is
   * or is cancelled.  Nor is it without attempts left, if its cancellation is requested or the hard limit is reached.
   */
  lemma FullProgressIsNeverClaimed(rows: Rows, events: seq<Event>, id: JobId, claim: Event)
    requires TableOk(rows) && id in rows && Ungrantable(rows[id]) && claim.Claim? && claim.id == id
    ensures id in Run(rows, events) && Ungrantable(Run(rows, events)[id])
    ensures rows[id].status.Queued? && rows[id].attempts < rows[id].maxAttempts ==>
      Run(rows, events)[id] == rows[id] || Run(rows, events)[id].status.Cancelled?
    ensures !Accepted(Run(rows, events), claim)
  {
    StuckForGood(rows, events, id, rows[id]);
    StuckStep(Run(rows, events), claim, id, rows[id]);
  }

  /** Some run of the queue ends in a grant of the job. */
  ghost predicate Grantable(rows: Rows, id: JobId) {
    exists events: seq<Event>, claim: Event :: claim.Claim? && claim.id == id && Accepted(Run(rows, events), claim)
  }

  /** A time at which an exhausted queued row can be ended. */
  function Latest(j: Job): (at: Instant)
    ensures j.runAfter <= at && (j.startedAt.Some? ==> j.startedAt.value <= at)
  {
    if j.startedAt.Some? then Max(j.runAfter, j.startedAt.value) else j.runAfter
  }

  /** The rows of such a run: every reply is the write of the next one. */
  lemma ExhaustedIsRetriedInItsRow(j: Job, worker: Padded, lease: Duration)
    requires RowOk(j) && j.status.Queued? && !j.cancelRequested && j.attempts == j.maxAttempts && j.attempts < MAX_ATTEMPTS
    requires 1 <= |worker.core| <= 100 && 0 < lease
    ensures
      var at := Latest(j);
      var swept := AsExhausted(j, at);
      var retried := AsRetried(swept, at);
      && RowReply(j, Sweep(j.jobId, at)) == Ok(swept) && RowReply(swept, Retry(j.jobId, at)) == Ok(retried)
      && RowReply(retried, Claim(j.jobId, worker, lease, at)).Ok?
  {
    var at := Latest(j);
    ExhaustedIsValid(j, at);
    GrantRefusedExactlyWhen(AsRetried(AsExhausted(j, at), at), worker, lease, at);
  }

  /** Ending such a job, retrying it by hand and claiming it are accepted one after the other. */
  lemma ExhaustedIsRetriedAndClaimed(rows: Rows, id: JobId, worker: Padded, lease: Duration)
    requires TableOk(rows) && id in rows && rows[id].status.Queued? && !rows[id].cancelRequested
    requires rows[id].attempts == rows[id].maxAttempts && rows[id].attempts < MAX_ATTEMPTS
    requires 1 <= |worker.core| <= 100 && 0 < lease
    ensures var at := Latest(rows[id]); Accepted(Run(rows, [Sweep(id, at), Retry(id, at)]), Claim(id, worker, lease, at))
  {
    var j, at := rows[id], Latest(rows[id]);
    var swept := AsExhausted(j, at);
    ExhaustedIsRetriedInItsRow(j, worker, lease);
    StepWrites(rows, Sweep(id, at), swept);
    StepWrites(rows[id := swept], Retry(id, at), AsRetried(swept, at));
    RunTwo(rows, Sweep(id, at), Retry(id, at));
  }

  lemma StepWrites(rows: Rows, e: Event, k: Job)
    requires !e.Enqueue? && !ArgumentsRefused(e) && e.id in rows && RowReply(rows[e.id], e) == Ok(k)
    ensures Accepted(rows, e) && Step(rows, e) == rows[e.id := k]
  {
  }

  lemma RunTwo(rows: Rows, e: Event, f: Event)
    ensures Run(rows, [e, f]) == Step(Step(rows, e), f)
  {
    RunOne(rows, [], e);
    RunOne(rows, [e], f);
    assert [] + [e] == [e] && [e] + [f] == [e, f];
  }

  /**
   * The exact condition: a queued job with full progress can ever be claimed exactly when it has no attempt left
   * below the hard limit and no cancellation is requested.  It is then ended, and a manual retry resets its progress.
   */
  lemma FullProgressIsClaimedExactlyWhen(rows: Rows, id: JobId)
    requires TableOk(rows) && id in rows && rows[id].status.Queued? && rows[id].progress == 100
    ensures Grantable(rows, id) <==>
            !rows[id].cancelRequested && rows[id].attempts == rows[id].maxAttempts && rows[id].attempts < MAX_ATTEMPTS
  {
    if Ungrantable(rows[id]) {
      forall events: seq<Event>, claim: Event | claim.Claim? && claim.id == id
        ensures !Accepted(Run(rows, events), claim)
      {
        FullProgressIsNeverClaimed(rows, events, id, claim);
      }
    } else {
      var worker := Padded("", "w", "");
      ExhaustedIsRetriedAndClaimed(rows, id, worker, 1);
    }
  }

  /** A clock that recedes behind the start of the job makes its success violate a table check. */
  lemma RecedingClockRefusesSuccess(j: Job, result: Option<string>, at: Instant)
    requires RowOk(j) && j.status.Running? && Bounded(result, 200) && j.createdAt <= at
    ensures Committed(AsSucceeded(j, result, at)) == Err(Integrity) <==> at < j.startedAt.value
    ensures Committed(AsSucceeded(j, result, at)) != Err(Rejected)
  {
    assert Valid(AsSucceeded(j, result, at));
  }

  // ---- Identity and idempotent enqueue ----

  lemma StepKeepsIdentity(rows: Rows, e: Event, id: JobId)
    requires id in rows
    ensures id in Step(rows, e) && SameIdentity(rows[id], Step(rows, e)[id])
  {
    StepRow(rows, e, id);
    if !e.Enqueue? {
      NextKeepsIdentity(rows[id], e);
    }
  }

  /** Rows are never deleted, and what identifies a job never changes. */
  lemma {:induction false} IdentityIsPermanent(rows: Rows, events: seq<Event>, id: JobId)
    requires TableOk(rows) && id in rows
    ensures TableOk(Run(rows, events)) && id in Run(rows, events)
    ensures SameIdentity(rows[id], Run(rows, events)[id])
  {
    if events != [] {
      var past, e := events[..|events| - 1], events[|events| - 1];
      IdentityIsPermanent(rows, past, id);
      StepOk(Run(rows, past), e);
      StepKeepsIdentity(Run(rows, past), e, id);
    }
  }

  /** The caller of `enqueue` is told that it created the job. */
  ghost predicate Created(rows: Rows, e: Event) {
    e.Enqueue? && Accepted(rows, e) && !KeyTaken(rows, e.job)
  }

  /**
   * However enqueues of one (kind, key) interleave with anything else, once one of them was accepted every later
   * one is answered with the same job, creates nothing and leaves the table alone.
   */
  lemma EnqueueIsIdempotent(history: seq<Event>, first: Event, between: seq<Event>, second: Event)
    requires first.Enqueue? && second.Enqueue? && SameKey(second.job, first.job)
    requires Accepted(Replay(history), first)
    ensures
      var after := Run(Step(Replay(history), first), between);
      && Accepted(after, second) && !Created(after, second)
      && ReplyTo(after, second).job.jobId == ReplyTo(Replay(history), first).job.jobId
      && Step(after, second) == after
  {
    var rows := Replay(history);
    ReachableTableIsOk(history);
    StepOk(rows, first);
    var id := ReplyTo(rows, first).job.jobId;
    IdentityIsPermanent(Step(rows, first), between, id);
    var after := Run(Step(rows, first), between);
    assert SameKey(second.job, after[id]);
    var holder := Holder(after, second.job);
    assert SameKey(after[holder], after[id]);
  }

  /** An enqueue with the key of `j` that is told it created the job. */
  ghost predicate Creates(rows: Rows, e: Event, j: Job) {
    Created(rows, e) && SameKey(j, e.job)
  }

  /** How many callers have been told that they created the job with the key of `j`. */
  ghost function Creators(history: seq<Event>, j: Job): nat {
    if history == [] then 0
    else
      var past := history[..|history| - 1];
      Creators(past, j) + if Creates(Replay(past), history[|history| - 1], j) then 1 else 0
  }

  /** A key is taken by the enqueue that creates its job, and by nothing else. */
  lemma TakenStep(rows: Rows, e: Event, j: Job)
    requires j.idempotencyKey.Some?
    ensures KeyTaken(Step(rows, e), j) <==> KeyTaken(rows, j) || Creates(rows, e, j)
    ensures Creates(rows, e, j) ==> !KeyTaken(rows, j)
  {
    if KeyTaken(rows, j) {
      var id :| id in rows && SameKey(j, rows[id]);
      StepKeepsIdentity(rows, e, id);
      if e.Enqueue? && SameKey(j, e.job) { assert SameKey(e.job, rows[id]); }
    }
    if KeyTaken(Step(rows, e), j) {
      var id :| id in Step(rows, e) && SameKey(j, Step(rows, e)[id]);
      if id in rows { StepKeepsIdentity(rows, e, id); }
    }
    if Creates(rows, e, j) {
      CreatedIsInserted(rows, e);
      assert SameKey(j, Step(rows, e)[e.job.jobId]);
    }
  }

  lemma CreatedIsInserted(rows: Rows, e: Event)
    requires Created(rows, e)
    ensures Step(rows, e) == rows[e.job.jobId := e.job]
  {
  }

  /** In every history exactly one caller is told that it created the job of a key, once the key is taken at all. */
  lemma {:induction false} ExactlyOneCreator(history: seq<Event>, j: Job)
    requires j.idempotencyKey.Some?
    ensures Creators(history, j) == if KeyTaken(Replay(history), j) then 1 else 0
  {
    if history != [] {
      ExactlyOneCreator(history[..|history| - 1], j);
      TakenStep(Replay(history[..|history| - 1]), history[|history| - 1], j);
    }
  }
}
