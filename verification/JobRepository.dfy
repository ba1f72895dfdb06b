/** The job repository over one database session, with the history of everything that was committed. */
module JobRepositories {
  import opened Prelude
  import opened BackgroundJobs
  import opened JobQueue
  import opened QueueSafety
  import opened QueueAnswers

  datatype ClaimReply = Granted(job: Job) | NothingDue | Raised(fault: Fault)

  /** Rows that `claim_next` can lock: due, and not locked by another transaction. */
  function Candidates(rows: Rows, locked: set<JobId>, now: Instant): set<JobId> {
    set id | id in rows && id !in locked && Due(rows[id], now)
  }

  predicate First(rows: Rows, ids: set<JobId>, id: JobId)
    requires ids <= rows.Keys
  {
    id in ids && forall o :: o in ids ==> !Before(rows[o], rows[id])
  }

  lemma FirstExists(rows: Rows, ids: set<JobId>) returns (id: JobId)
    requires ids <= rows.Keys && ids != {}
    ensures First(rows, ids, id)
  {
    var any :| any in ids;
    var rest := ids - {any};
    id := any;
    if rest == {} {
      assert ids == {any};
    } else {
      var first := FirstExists(rows, rest);
      if Before(rows[first], rows[any]) { id := first; }
      forall o | o in ids
        ensures !Before(rows[o], rows[id])
      {
        if o != any { assert o in rest; }
      }
    }
  }

  /** Everything between two histories was committed by `claim_next` while it was passing rows by. */
  ghost predicate OnlySweeps(events: seq<Event>, now: Instant) {
    forall i :: 0 <= i < |events| ==> events[i].Sweep? && events[i].at == now
  }

  /** No row of `later` comes before a row of `earlier`. */
  predicate InOrder(start: Rows, earlier: set<JobId>, later: set<JobId>) {
    && earlier + later <= start.Keys
    && forall id, o :: id in earlier && o in later ==> !Before(start[o], start[id])
  }

  lemma InOrderNext(start: Rows, earlier: set<JobId>, later: set<JobId>, id: JobId)
    requires InOrder(start, earlier, later) && First(start, later, id)
    ensures InOrder(start, earlier + {id}, later - {id})
  {
  }

  /** Nobody may run the rows in `ended`: each was cancelled if that was requested, otherwise failed for good. */
  predicate ProperlyEnded(start: Rows, ended: Rows, now: Instant) {
    && ended.Keys <= start.Keys
    && forall id :: id in ended ==>
         && Due(start[id], now) && !Claimable(start[id])
         && ended[id] == (if start[id].cancelRequested then AsCancelled(start[id], now)
                          else AsExhausted(start[id], now))
  }

  lemma EndOneMore(start: Rows, ended: Rows, now: Instant, id: JobId, job: Job)
    requires ProperlyEnded(start, ended, now) && id in start
    requires Due(start[id], now) && !Claimable(start[id]) && SweepReply(start[id], now) == Ok(job)
    ensures ProperlyEnded(start, ended[id := job], now)
  {
  }

  /** What the claim loop can still select once it has ended some of the rows that were due. */
  lemma CandidatesLeft(start: Rows, ended: Rows, locked: set<JobId>, now: Instant)
    requires ProperlyEnded(start, ended, now)
    ensures Candidates(start + ended, locked, now) == Candidates(start, locked, now) - ended.Keys
  {
    forall id | id in start + ended
      ensures id in Candidates(start + ended, locked, now) <==> id in Candidates(start, locked, now) - ended.Keys
    {
      if id in ended { assert (start + ended)[id].IsTerminal(); }
    }
  }

  lemma FirstOfLeft(start: Rows, ended: Rows, left: set<JobId>, id: JobId)
    requires left <= start.Keys && left !! ended.Keys && First(start + ended, left, id)
    ensures First(start, left, id) && (start + ended)[id] == start[id]
  {
    forall o | o in left
      ensures !Before(start[o], start[id])
    {
      assert (start + ended)[o] == start[o];
    }
  }

  /** The row that `claim_next` would write for `j` is refused. */
  predicate Unwritable(j: Job, worker: Padded, lease: Duration, now: Instant) {
    if Claimable(j) then Committed(AsGranted(j, worker, lease, now)).Err? else SweepReply(j, now).Err?
  }

  /** Between two iterations of the claim loop: exactly the rows in `ended` have been written, in order. */
  ghost predicate Looping(start: Rows, ended: Rows, rows: Rows, due: set<JobId>, now: Instant) {
    && rows == start + ended && ended.Keys <= due && ProperlyEnded(start, ended, now)
    && InOrder(start, ended.Keys, due - ended.Keys)
  }

  lemma MergeUpdate(start: Rows, ended: Rows, due: set<JobId>, id: JobId, job: Job)
    requires id in due && id !in ended
    ensures (start + ended)[id := job] == start + ended[id := job]
    ensures ended[id := job].Keys == ended.Keys + {id}
    ensures due - ended[id := job].Keys == (due - ended.Keys) - {id}
  {
  }

  lemma LoopOnceMore(start: Rows, ended: Rows, due: set<JobId>, now: Instant, id: JobId, job: Job)
    requires Looping(start, ended, start + ended, due, now) && First(start, due - ended.Keys, id)
    requires Due(start[id], now) && !Claimable(start[id]) && SweepReply(start[id], now) == Ok(job)
    ensures Looping(start, ended[id := job], (start + ended)[id := job], due, now)
    ensures |due - ended[id := job].Keys| < |due - ended.Keys|
  {
    MergeUpdate(start, ended, due, id, job);
    EndOneMore(start, ended, now, id, job);
    InOrderNext(start, ended.Keys, due - ended.Keys, id);
  }

  ghost predicate Logged(past: seq<Event>, swept: seq<Event>, history: seq<Event>, now: Instant) {
    OnlySweeps(swept, now) && history == past + swept
  }

  lemma LogOneMore(past: seq<Event>, swept: seq<Event>, history: seq<Event>, now: Instant, id: JobId)
    requires Logged(past, swept, history, now)
    ensures Logged(past, swept + [Sweep(id, now)], history + [Sweep(id, now)], now)
  {
  }

  // ---- Other sessions between two iterations of the claim loop ----

  /** What other sessions commit after a sweep has been committed, and what they keep locked from then on. */
  datatype Pause = Pause(events: seq<Event>, locked: set<JobId>)

  /** The rows that are locked once the pauses after the first sweeps are over. */
  function LocksAfter(locked: set<JobId>, pauses: seq<Pause>, n: nat): set<JobId>
    requires n <= |pauses|
  {
    if n == 0 then locked else pauses[n - 1].locked
  }

  /** The sweeps of `ids`, each with its pause. */
  function PastOf(ids: seq<JobId>, pauses: seq<Pause>, now: Instant): seq<Event>
    requires |ids| <= |pauses|
  {
    if ids == [] then []
    else
      var n := |ids| - 1;
      PastOf(ids[..n], pauses, now) + [Sweep(ids[n], now)] + pauses[n].events
  }

  /** Each of these sweeps ended a first candidate, of the table and the locks as they were, that nobody may run. */
  ghost predicate ProperSweeps(rows: Rows, ids: seq<JobId>, locked: set<JobId>, pauses: seq<Pause>, now: Instant)
    requires |ids| <= |pauses|
  {
    if ids == [] then true
    else
      var n := |ids| - 1;
      var start := Run(rows, PastOf(ids[..n], pauses, now));
      && ProperSweeps(rows, ids[..n], locked, pauses, now)
      && First(start, Candidates(start, LocksAfter(locked, pauses, n), now), ids[n]) && !Claimable(start[ids[n]])
  }

  /** Since `start` no other session has committed anything: the pauses before it are those after `ids`. */
  ghost predicate Paused(rows: Rows, ids: seq<JobId>, start: Rows, locked: set<JobId>, held: set<JobId>,
                         pauses: seq<Pause>, now: Instant) {
    && |ids| <= |pauses| && start == Run(rows, PastOf(ids, pauses, now)) && held == LocksAfter(locked, pauses, |ids|)
    && ProperSweeps(rows, ids, locked, pauses, now)
  }

  lemma PausedNext(rows: Rows, ids: seq<JobId>, start: Rows, locked: set<JobId>, held: set<JobId>,
                   pauses: seq<Pause>, now: Instant, id: JobId)
    requires Paused(rows, ids, start, locked, held, pauses, now) && |ids| < |pauses|
    requires First(start, Candidates(start, held, now), id) && !Claimable(start[id])
    ensures PastOf(ids + [id], pauses, now) == PastOf(ids, pauses, now) + [Sweep(id, now)] + pauses[|ids|].events
    ensures Paused(rows, ids + [id], Run(rows, PastOf(ids + [id], pauses, now)), locked, pauses[|ids|].locked, pauses, now)
  {
    assert (ids + [id])[..|ids|] == ids;
  }

  /** What a claim found and did: the sweeps that others interrupted, the table since, and the rows ended since. */
  datatype Pass = Pass(ids: seq<JobId>, start: Rows, ended: Rows, swept: seq<Event>)

  /** The answer of a claim, against the table `p.start` and the locks since the last interruption. */
  ghost predicate Answers(reply: ClaimReply, p: Pass, held: set<JobId>, worker: Padded, lease: Duration, now: Instant) {
    var due := Candidates(p.start, held, now);
    && OnlySweeps(p.swept, now) && ProperlyEnded(p.start, p.ended, now) && p.ended.Keys <= due
    && InOrder(p.start, p.ended.Keys, due - p.ended.Keys) && Run(p.start, p.swept) == p.start + p.ended
    && (reply == Raised(BadArgument) <==> worker.Blank() || lease <= 0)
    && match reply
       case Granted(job) =>
         && First(p.start, due - p.ended.Keys, job.jobId) && Claimable(p.start[job.jobId])
         && job == AsGranted(p.start[job.jobId], worker, lease, now)
         && Accepted(p.start + p.ended, Claim(job.jobId, worker, lease, now))
       case NothingDue => p.ended.Keys == due
       case Raised(fault) =>
         fault != BadArgument ==> exists id :: id in due && Unwritable(p.start[id], worker, lease, now)
  }

  predicate NothingToClaim(rows: Rows, locked: set<JobId>, now: Instant) {
    forall id :: id in rows && id !in locked ==> !Runnable(rows[id], now)
  }

  /** The first of the rows that a claim may take on: by run time, then by creation time. */
  predicate FirstRunnable(rows: Rows, locked: set<JobId>, now: Instant, id: JobId) {
    && id in rows && id !in locked && Runnable(rows[id], now)
    && forall o :: o in rows && o !in locked && Runnable(rows[o], now) ==> NoLater(rows[id], rows[o])
  }

  /** What a claim answers, in the fields of the rows that no other session holds. */
  lemma ClaimAnswers(reply: ClaimReply, p: Pass, held: set<JobId>, worker: Padded, lease: Duration, now: Instant)
    requires Answers(reply, p, held, worker, lease, now)
    ensures reply.NothingDue? ==> NothingToClaim(p.start, held, now)
    ensures reply.Granted? ==> FirstRunnable(p.start, held, now, reply.job.jobId)
  {
    forall id | id in p.start && id !in held
      ensures id in Candidates(p.start, held, now) <==> Reached(p.start[id], now)
    {
    }
  }

  /** What a claim ends on its way: rows that have come up and cannot run, and all of them if it finds nothing. */
  lemma ClaimEnds(reply: ClaimReply, p: Pass, held: set<JobId>, worker: Padded, lease: Duration, now: Instant, id: JobId)
    requires Answers(reply, p, held, worker, lease, now) && TableOk(p.start) && id in p.start && id !in held
    ensures reply.NothingDue? && Reached(p.start[id], now) ==> id in p.ended
    ensures id in p.ended ==>
      && Reached(p.start[id], now) && !Runnable(p.start[id], now)
      && if p.start[id].cancelRequested then CancelledAt(p.start[id], p.ended[id], now)
         else FailedAt(p.start[id], p.ended[id], now, Text(AttemptsExhausted, 18), Text(AttemptsExhausted, 52))
  {
    assert id in Candidates(p.start, held, now) <==> Reached(p.start[id], now);
  }

  /**
   * A due row that may run but cannot be granted stops every claim while it comes first: whatever the table around
   * it, nothing is granted, and the claim raises.
   */
  lemma UngrantableRowStopsClaims(reply: ClaimReply, p: Pass, held: set<JobId>, worker: Padded, lease: Duration,
                                  now: Instant, id: JobId)
    requires Answers(reply, p, held, worker, lease, now)
    requires id in Candidates(p.start, held, now) && Claimable(p.start[id]) && Unwritable(p.start[id], worker, lease, now)
    requires forall o :: o in Candidates(p.start, held, now) && Claimable(p.start[o]) && o != id ==>
      Before(p.start[id], p.start[o])
    ensures reply.Raised?
  {
    assert id !in p.ended;
  }

  /** What the select finds in the middle of the loop. */
  lemma SelectedIsFirst(p: Pass, rows: Rows, held: set<JobId>, now: Instant, id: JobId)
    requires Looping(p.start, p.ended, rows, Candidates(p.start, held, now), now)
    requires First(rows, Candidates(rows, held, now), id)
    ensures
      var due := Candidates(p.start, held, now);
      id in due && First(p.start, due - p.ended.Keys, id) && rows[id] == p.start[id] && Due(rows[id], now)
  {
    CandidatesLeft(p.start, p.ended, held, now);
    FirstOfLeft(p.start, p.ended, Candidates(p.start, held, now) - p.ended.Keys, id);
  }

  lemma NothingSelected(p: Pass, rows: Rows, held: set<JobId>, now: Instant)
    requires Looping(p.start, p.ended, rows, Candidates(p.start, held, now), now) && Candidates(rows, held, now) == {}
    ensures p.ended.Keys == Candidates(p.start, held, now)
  {
    CandidatesLeft(p.start, p.ended, held, now);
    NothingLeft(Candidates(p.start, held, now), p.ended.Keys);
  }

  /** The invariant of the claim loop, at a table and a history. */
  ghost predicate Claiming(start: Rows, past: seq<Event>, rows: Rows, history: seq<Event>, p: Pass,
                           locked: set<JobId>, held: set<JobId>, pauses: seq<Pause>, now: Instant) {
    && Paused(start, p.ids, p.start, locked, held, pauses, now)
    && Logged(past + PastOf(p.ids, pauses, now), p.swept, history, now)
    && Looping(p.start, p.ended, rows, Candidates(p.start, held, now), now)
    && (|p.ids| < |pauses| ==> p.swept == [] && p.ended == map[])
  }

  lemma ClaimingAfresh(start: Rows, past: seq<Event>, rows: Rows, history: seq<Event>, ids: seq<JobId>,
                       locked: set<JobId>, held: set<JobId>, pauses: seq<Pause>, now: Instant)
    requires Paused(start, ids, rows, locked, held, pauses, now) && history == past + PastOf(ids, pauses, now)
    ensures Claiming(start, past, rows, history, Pass(ids, rows, map[], []), locked, held, pauses, now)
  {
    assert rows + map[] == rows;
  }

  lemma ClaimingFirst(rows: Rows, history: seq<Event>, locked: set<JobId>, pauses: seq<Pause>, now: Instant)
    ensures Claiming(rows, history, rows, history, Pass([], rows, map[], []), locked, locked, pauses, now)
  {
    assert Run(rows, []) == rows;
    ClaimingAfresh(rows, history, rows, history, [], locked, locked, pauses, now);
  }

  /** A sweep after the last pause. */
  lemma ClaimingSwept(start: Rows, past: seq<Event>, rows: Rows, history: seq<Event>, p: Pass, locked: set<JobId>,
                      held: set<JobId>, pauses: seq<Pause>, now: Instant, id: JobId, job: Job)
    requires Claiming(start, past, rows, history, p, locked, held, pauses, now) && |p.ids| == |pauses|
    requires First(rows, Candidates(rows, held, now), id) && !Claimable(rows[id]) && SweepReply(rows[id], now) == Ok(job)
    ensures
      var q := p.(ended := p.ended[id := job], swept := p.swept + [Sweep(id, now)]);
      && Claiming(start, past, rows[id := job], history + [Sweep(id, now)], q, locked, held, pauses, now)
      && |Candidates(p.start, held, now) - q.ended.Keys| < |Candidates(p.start, held, now) - p.ended.Keys|
  {
    SelectedIsFirst(p, rows, held, now, id);
    LoopOnceMore(p.start, p.ended, Candidates(p.start, held, now), now, id, job);
    LogOneMore(past + PastOf(p.ids, pauses, now), p.swept, history, now, id);
  }

  /** A sweep with a pause after it: the bookkeeping starts afresh from what other sessions have left. */
  lemma ClaimingPaused(start: Rows, past: seq<Event>, rows: Rows, history: seq<Event>, p: Pass, locked: set<JobId>,
                       held: set<JobId>, pauses: seq<Pause>, now: Instant, id: JobId, after: seq<Event>)
    requires start == Replay(past) && Claiming(start, past, rows, history, p, locked, held, pauses, now)
    requires |p.ids| < |pauses| && after == history + [Sweep(id, now)] + pauses[|p.ids|].events
    requires First(rows, Candidates(rows, held, now), id) && !Claimable(rows[id])
    ensures
      var q := Pass(p.ids + [id], Replay(after), map[], []);
      Claiming(start, past, Replay(after), after, q, locked, pauses[|p.ids|].locked, pauses, now)
  {
    var ids := p.ids + [id];
    assert rows == p.start;
    PausedNext(start, p.ids, p.start, locked, held, pauses, now, id);
    assert after == past + PastOf(ids, pauses, now);
    RunConcat(map[], past, PastOf(ids, pauses, now));
    ClaimingAfresh(start, past, Replay(after), after, ids, locked, pauses[|p.ids|].locked, pauses, now);
  }

  lemma AppendNext(past: seq<Event>, events: seq<Event>, i: nat)
    requires i < |events|
    ensures past + events[..i] + [events[i]] == past + events[..i + 1]
  {
  }

  lemma AllAppended(past: seq<Event>, events: seq<Event>)
    ensures past + events[..|events|] == past + events && Replay(past + events) == Run(Replay(past), events)
  {
    RunConcat(map[], past, events);
  }

  lemma SweptRun(past: seq<Event>, paused: seq<Event>, swept: seq<Event>)
    ensures Replay(past + paused + swept) == Run(Run(Replay(past), paused), swept)
  {
    RunConcat(map[], past + paused, swept);
    RunConcat(map[], past, paused);
  }

  class JobRepository {
    var rows: Rows
    ghost var history: seq<Event>

    ghost predicate Valid()
      reads this
    {
      rows == Replay(history)
    }

    constructor ()
      ensures Valid() && history == [] && rows == map[]
    {
      rows := map[];
      history := [];
    }

    method Get(id: JobId) returns (job: Option<Job>)
      ensures job == if id in rows then Some(rows[id]) else None
    {
      job := if id in rows then Some(rows[id]) else None;
    }

    method FindByKey(job: Job) returns (existing: Option<Job>)
      requires Valid()
      ensures existing.Some? <==> KeyTaken(rows, job)
      ensures existing.Some? ==> existing.value == rows[Holder(rows, job)]
    {
      var matches := set id | id in rows && SameKey(job, rows[id]);
      if matches == {} {
        assert forall id :: id in rows && SameKey(job, rows[id]) ==> id in matches;
        existing := None;
      } else {
        var id :| id in matches;
        existing := Some(rows[id]);
        ReachableTableIsOk(history);
        assert SameKey(rows[id], rows[Holder(rows, job)]);
      }
    }

    /**
     * The lookup by key and the commit are two transactions; `racing` is what the other sessions commit in
     * between.  The unique constraint then sends the loser of the race to the job of the winner.
     */
    method Enqueue(job: Job, now: Instant, racing: seq<Event>) returns (reply: Reply, created: bool)
      requires Valid() && BackgroundJobs.Valid(job)
      modifies this
      ensures Valid()
      ensures KeyTaken(old(rows), job) ==> history == old(history) + [JobQueue.Enqueue(job, now)]
      ensures !KeyTaken(old(rows), job) ==> history == old(history) + racing + [JobQueue.Enqueue(job, now)]
      ensures
        var before := Replay(history[..|history| - 1]);
        reply == ReplyTo(before, JobQueue.Enqueue(job, now)) && created == Created(before, JobQueue.Enqueue(job, now))
    {
      var existing := FindByKey(job);
      if existing.Some? {
        reply, created := Ok(existing.value), false;
      } else {
        OtherSessions(racing);
        var winner := FindByKey(job);
        if winner.None? && job.jobId !in rows && TableChecks(job) {
          rows := rows[job.jobId := job];
          reply, created := Ok(job), true;
        } else if winner.Some? {
          reply, created := Ok(winner.value), false;
        } else {
          reply, created := Err(BadArgument), false;
        }
      }
      Record(JobQueue.Enqueue(job, now));
    }

    /**
     * `claim_next`: ends the due rows that nobody may run, in order, until it can grant one.  Each of those ends is
     * committed by itself, and `pauses` are what other sessions do after each of the first ones.
     */
    method ClaimNext(worker: Padded, lease: Duration, now: Instant, locked: set<JobId>, pauses: seq<Pause>)
      returns (reply: ClaimReply, ghost p: Pass)
      requires Valid()
      modifies this
      ensures Valid() && |p.ids| <= |pauses|
      ensures Paused(old(rows), p.ids, p.start, locked, LocksAfter(locked, pauses, |p.ids|), pauses, now)
      ensures Answers(reply, p, LocksAfter(locked, pauses, |p.ids|), worker, lease, now)
      ensures reply == Raised(BadArgument) ==> rows == old(rows) && history == old(history)
      ensures !reply.Granted? ==>
        rows == p.start + p.ended && history == old(history) + PastOf(p.ids, pauses, now) + p.swept
      ensures reply.Granted? ==>
        && rows == (p.start + p.ended)[reply.job.jobId := reply.job]
        && history == old(history) + PastOf(p.ids, pauses, now) + p.swept + [Claim(reply.job.jobId, worker, lease, now)]
    {
      if worker.Blank() || lease <= 0 {
        p := Pass([], rows, map[], []);
        assert rows + map[] == rows;
        reply := Raised(BadArgument);
      } else {
        var next: Option<JobId>, fault: Option<Fault>;
        next, fault, p := EndUntilClaimable(worker, lease, now, locked, pauses);
        SweptRun(old(history), PastOf(p.ids, pauses, now), p.swept);
        if fault.Some? {
          reply := Raised(fault.value);
        } else if next.None? {
          reply := NothingDue;
        } else {
          reply := Grant(next.value, worker, lease, now);
        }
      }
    }

    /** The select of `claim_next`: any first candidate. */
    method SelectFirst(held: set<JobId>, now: Instant) returns (id: Option<JobId>)
      ensures id.None? <==> Candidates(rows, held, now) == {}
      ensures id.Some? ==> First(rows, Candidates(rows, held, now), id.value)
    {
      var ids := Candidates(rows, held, now);
      if ids == {} {
        return None;
      }
      ghost var first := FirstExists(rows, ids);
      var any :| any in ids && First(rows, ids, any);
      id := Some(any);
    }

    /** The loop of `claim_next`, up to the first row that can be granted. */
    method EndUntilClaimable(ghost worker: Padded, ghost lease: Duration, now: Instant, locked: set<JobId>,
                             pauses: seq<Pause>)
      returns (next: Option<JobId>, fault: Option<Fault>, ghost p: Pass)
      requires Valid()
      modifies this
      ensures Valid() && |p.ids| <= |pauses|
      ensures Claiming(old(rows), old(history), rows, history, p, locked, LocksAfter(locked, pauses, |p.ids|), pauses, now)
      ensures
        var due := Candidates(p.start, LocksAfter(locked, pauses, |p.ids|), now);
        && (next.Some? ==>
              && First(p.start, due - p.ended.Keys, next.value) && rows[next.value] == p.start[next.value]
              && Due(rows[next.value], now) && Claimable(rows[next.value]))
        && (fault.Some? ==> fault.value in {Rejected, Integrity})
        && (fault.Some? ==> exists id :: id in due && Unwritable(p.start[id], worker, lease, now))
        && (fault.None? && next.None? ==> p.ended.Keys == due)
    {
      var held, i := locked, 0;
      next, fault := None, None;
      p := Pass([], rows, map[], []);
      ClaimingFirst(rows, history, locked, pauses, now);
      while true
        invariant Valid() && next.None? && fault.None? && |p.ids| == i <= |pauses|
        invariant Claiming(old(rows), old(history), rows, history, p, locked, held, pauses, now)
        decreases |pauses| - i, |Candidates(p.start, held, now) - p.ended.Keys|
      {
        var selected := SelectFirst(held, now);
        if selected.None? {
          NothingSelected(p, rows, held, now);
          return;
        }
        var id := selected.value;
        SelectedIsFirst(p, rows, held, now, id);
        if Claimable(rows[id]) {
          next := Some(id);
          return;
        }
        ghost var before, past := rows, history;
        fault := PassBy(id, now);
        if fault.Some? {
          return;
        }
        if i < |pauses| {
          OtherSessions(pauses[i].events);
          ClaimingPaused(old(rows), old(history), before, past, p, locked, held, pauses, now, id, history);
          p := Pass(p.ids + [id], rows, map[], []);
          held, i := pauses[i].locked, i + 1;
        } else {
          ClaimingSwept(old(rows), old(history), before, past, p, locked, held, pauses, now, id, rows[id]);
          p := p.(ended := p.ended[id := rows[id]], swept := p.swept + [Sweep(id, now)]);
        }
      }
    }

    /** Ends a due row: cancelled if that was requested, otherwise failed after its last attempt. */
    method PassBy(id: JobId, now: Instant) returns (fault: Option<Fault>)
      requires Valid() && id in rows && Due(rows[id], now) && !Claimable(rows[id])
      modifies this
      ensures Valid()
      ensures fault.None? ==>
        && id in rows && SweepReply(old(rows)[id], now) == Ok(rows[id]) && rows == old(rows)[id := rows[id]]
        && history == old(history) + [Sweep(id, now)]
      ensures fault.Some? ==>
        && fault.value in {Rejected, Integrity} && rows == old(rows) && history == old(history)
        && SweepReply(rows[id], now).Err?
    {
      var written := SweepReply(rows[id], now);
      if written.Err? {
        return Some(written.fault);
      }
      rows := rows[id := written.job];
      Record(Sweep(id, now));
      fault := None;
    }

    method Grant(id: JobId, worker: Padded, lease: Duration, now: Instant) returns (reply: ClaimReply)
      requires Valid() && id in rows && Due(rows[id], now) && Claimable(rows[id])
      requires !worker.Blank() && 0 < lease
      modifies this
      ensures Valid() && !reply.NothingDue?
      ensures reply.Granted? ==>
        && reply.job.jobId == id && reply.job == AsGranted(old(rows)[id], worker, lease, now)
        && rows == old(rows)[id := reply.job]
        && Accepted(old(rows), Claim(id, worker, lease, now))
        && history == old(history) + [Claim(id, worker, lease, now)]
      ensures reply.Raised? ==>
        && reply.fault in {Rejected, Integrity} && rows == old(rows) && history == old(history)
        && Unwritable(rows[id], worker, lease, now)
    {
      ReachableTableIsOk(history);
      var written := Committed(AsGranted(rows[id], worker, lease, now));
      if written.Err? {
        return Raised(written.fault);
      }
      rows := rows[id := written.job];
      Record(Claim(id, worker, lease, now));
      reply := Granted(written.job);
    }

    method OwnedRunning(id: JobId, worker: Padded, now: Instant) returns (owned: Reply)
      ensures owned ==
        if id !in rows then Err(Missing) else if !Owned(rows[id], worker, now) then Err(Conflict) else Ok(rows[id])
    {
      if id !in rows {
        return Err(Missing);
      }
      var job := rows[id];
      if !job.status.Running? || job.leaseOwner != Some(worker)
         || job.leaseExpiresAt.None? || job.leaseExpiresAt.value <= now {
        return Err(Conflict);
      }
      owned := Ok(job);
    }

    method Persist(id: JobId, job: Job) returns (reply: Reply)
      modifies this`rows
      ensures reply == Committed(job)
      ensures rows == if reply.Ok? then old(rows)[id := job] else old(rows)
    {
      reply := Committed(job);
      if reply.Ok? {
        rows := rows[id := job];
      }
    }

    /** Appends the transaction that has just been committed. */
    ghost method Record(e: Event)
      requires rows == Step(Replay(history), e)
      modifies this`history
      ensures Valid() && history == old(history) + [e]
    {
      RunOne(map[], history, e);
      history := history + [e];
    }

    method Heartbeat(id: JobId, worker: Padded, progress: int, lease: Duration, now: Instant) returns (reply: Reply)
      requires Valid()
      modifies this
      ensures Valid() && history == old(history) + [JobQueue.Heartbeat(id, worker, progress, lease, now)]
      ensures reply == ReplyTo(old(rows), JobQueue.Heartbeat(id, worker, progress, lease, now))
      ensures rows == Step(old(rows), JobQueue.Heartbeat(id, worker, progress, lease, now))
    {
      if lease <= 0 {
        reply := Err(BadArgument);
      } else {
        reply := OwnedRunning(id, worker, now);
        if reply.Ok? {
          var current := reply.job;
          if progress < current.progress || !(0 <= progress < 100) {
            reply := Err(BadArgument);
          } else {
            reply := Persist(id, AsRenewed(current, progress, lease, now));
          }
        }
      }
      Record(JobQueue.Heartbeat(id, worker, progress, lease, now));
    }

    method Succeed(id: JobId, worker: Padded, result: Option<string>, now: Instant) returns (reply: Reply)
      requires Valid()
      modifies this
      ensures Valid() && history == old(history) + [JobQueue.Succeed(id, worker, result, now)]
      ensures reply == ReplyTo(old(rows), JobQueue.Succeed(id, worker, result, now))
      ensures rows == Step(old(rows), JobQueue.Succeed(id, worker, result, now))
    {
      reply := OwnedRunning(id, worker, now);
      if reply.Ok? {
        var current := reply.job;
        if current.cancelRequested {
          reply := Persist(id, AsCancelled(current, now));
        } else {
          reply := Persist(id, AsSucceeded(current, result, now));
        }
      }
      Record(JobQueue.Succeed(id, worker, result, now));
    }

    method Fail(id: JobId, worker: Padded, code: Text, message: Text, retryable: bool,
                delay: Option<Duration>, now: Instant) returns (reply: Reply)
      requires Valid()
      modifies this
      ensures Valid() && history == old(history) + [JobQueue.Fail(id, worker, code, message, retryable, delay, now)]
      ensures reply == ReplyTo(old(rows), JobQueue.Fail(id, worker, code, message, retryable, delay, now))
      ensures rows == Step(old(rows), JobQueue.Fail(id, worker, code, message, retryable, delay, now))
    {
      if DelayOf(delay) < 0 {
        reply := Err(BadArgument);
      } else {
        reply := OwnedRunning(id, worker, now);
        if reply.Ok? {
          var current := reply.job;
          if current.cancelRequested {
            reply := Persist(id, AsCancelled(current, now));
          } else if retryable && current.attempts < current.maxAttempts {
            reply := Persist(id, AsRequeued(current, DelayOf(delay), now));
          } else {
            reply := Persist(id, AsFailed(current, code, message, now));
          }
        }
      }
      Record(JobQueue.Fail(id, worker, code, message, retryable, delay, now));
    }

    method RequestCancel(id: JobId, now: Instant) returns (reply: Reply)
      requires Valid()
      modifies this
      ensures Valid() && history == old(history) + [Cancel(id, now)]
      ensures reply == ReplyTo(old(rows), Cancel(id, now)) && rows == Step(old(rows), Cancel(id, now))
    {
      if id !in rows {
        reply := Err(Missing);
      } else {
        var current := rows[id];
        if current.IsTerminal() {
          reply := Ok(current);
          assert rows == rows[id := current];
        } else if current.status.Queued? {
          reply := Persist(id, AsCancelled(current, now));
        } else {
          reply := Persist(id, current.(cancelRequested := true, updatedAt := now));
        }
      }
      Record(Cancel(id, now));
    }

    method RetryFailed(id: JobId, now: Instant) returns (reply: Reply)
      requires Valid()
      modifies this
      ensures Valid() && history == old(history) + [Retry(id, now)]
      ensures reply == ReplyTo(old(rows), Retry(id, now)) && rows == Step(old(rows), Retry(id, now))
    {
      if id !in rows {
        reply := Err(Missing);
      } else {
        var current := rows[id];
        if !current.status.Failed? || MAX_ATTEMPTS <= current.attempts {
          reply := Err(BadArgument);
        } else {
          reply := Persist(id, AsRetried(current, now));
        }
      }
      Record(Retry(id, now));
    }

    /** One transaction of another session. */
    method Perform(e: Event)
      requires Valid()
      modifies this
      ensures Valid() && history == old(history) + [e]
    {
      match e {
        case Enqueue(job, at) =>
          var existing := FindByKey(job);
          if existing.None? && job.jobId !in rows && RowOk(job) {
            rows := rows[job.jobId := job];
          }
          Record(e);
        case Sweep(id, at) =>
          if id in rows && Due(rows[id], at) && !Claimable(rows[id]) {
            var written := SweepReply(rows[id], at);
            if written.Ok? { rows := rows[id := written.job]; }
          }
          Record(e);
        case Claim(id, worker, lease, at) =>
          if !worker.Blank() && 0 < lease && id in rows && Due(rows[id], at) && Claimable(rows[id]) {
            var written := Committed(AsGranted(rows[id], worker, lease, at));
            if written.Ok? { rows := rows[id := written.job]; }
          }
          Record(e);
        case Heartbeat(id, worker, progress, lease, at) =>
          var _ := Heartbeat(id, worker, progress, lease, at);
        case Succeed(id, worker, result, at) =>
          var _ := Succeed(id, worker, result, at);
        case Fail(id, worker, code, message, retryable, delay, at) =>
          var _ := Fail(id, worker, code, message, retryable, delay, at);
        case Cancel(id, at) =>
          var _ := RequestCancel(id, at);
        case Retry(id, at) =>
          var _ := RetryFailed(id, at);
      }
    }

    /** What other sessions commit while this one is busy elsewhere. */
    method OtherSessions(events: seq<Event>)
      requires Valid()
      modifies this
      ensures Valid() && history == old(history) + events && rows == Run(old(rows), events)
    {
      ghost var past := history;
      for i := 0 to |events|
        invariant Valid() && history == past + events[..i]
      {
        AppendNext(past, events, i);
        Perform(events[i]);
      }
      AllAppended(past, events);
    }
  }
}
