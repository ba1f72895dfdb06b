/** The two capacity loops that drain a queue of due jobs: by plain statements, and by worker cycles. */
module QueueDrain {
  import opened Prelude
  import opened BackgroundJobs
  import opened JobQueue
  import opened QueueSafety
  import opened QueueAnswers
  import opened JobRepositories
  import opened JobWorker
  import opened WorkerSafety
  import opened CanonicalOrder

  // ---- Worker cycles ----

  /** A job of the batch before it is drained. */
  predicate Waiting(j: Job, clock: Instant) {
    SoundRow(j, clock) && j.status.Queued? && j.runAfter <= clock && j.payloadVersion in PolicyFor(j.kind).supportedVersions
  }

  /** The handler of the benchmark: it returns a reference and does nothing else. */
  predicate CompletesJob(handler: Handler) {
    handler.steps == [] && handler.end.Returns? && Bounded(handler.end.result, 200)
  }

  predicate Ready(worker: BackgroundJobWorker) {
    && worker.worker.Trimmed() && 1 <= |worker.worker.core| <= 100 && 0 < worker.lease
    && forall kind :: kind in worker.handlers && CompletesJob(worker.handlers[kind])
  }

  /** The two clock readings of each cycle: no cycle starts before `clock` or outlasts its lease. */
  predicate Ticking(ticks: seq<(Instant, Instant)>, clock: Instant, lease: Duration) {
    forall i :: 0 <= i < |ticks| ==> clock <= ticks[i].0 <= ticks[i].1 < ticks[i].0 + lease
  }

  predicate DoneOnce(before: Job, after: Job) {
    && SameIdentity(before, after) && after.status.Succeeded? && after.progress == 100
    && after.attempts == before.attempts + 1 && after.startedAt.Some?
  }

  /** `left` is still waiting as at the start; everything else is finished, the drained part of the batch exactly once. */
  predicate Draining(start: Rows, rows: Rows, batch: set<JobId>, left: set<JobId>) {
    && rows.Keys == start.Keys && left <= batch <= start.Keys
    && (forall id :: id in start && id in left ==> rows[id] == start[id])
    && (forall id :: id in start && id !in batch ==> rows[id] == start[id])
    && (forall id :: id in batch && id !in left ==> DoneOnce(start[id], rows[id]))
  }

  predicate Batch(rows: Rows, batch: set<JobId>, clock: Instant) {
    && batch <= rows.Keys
    && forall id :: id in rows ==> rows[id].jobId == id && if id in batch then Waiting(rows[id], clock) else rows[id].IsTerminal()
  }

  /** A sweep finds nothing to end where every due row can run. */
  lemma {:induction false} SweepsDoNothing(rows: Rows, swept: seq<Event>, now: Instant)
    requires OnlySweeps(swept, now) && forall id :: id in rows && Due(rows[id], now) ==> Claimable(rows[id])
    ensures Run(rows, swept) == rows
  {
    if swept != [] {
      SweepsDoNothing(rows, swept[..|swept| - 1], now);
    }
  }

  lemma DueIsWaiting(start: Rows, rows: Rows, batch: set<JobId>, left: set<JobId>, clock: Instant, now: Instant)
    requires Batch(start, batch, clock) && Draining(start, rows, batch, left) && clock <= now
    ensures Candidates(rows, {}, now) == left
    ensures forall id :: id in rows && Due(rows[id], now) ==> Claimable(rows[id])
  {
    forall id | id in rows
      ensures id in left <==> Due(rows[id], now)
      ensures Due(rows[id], now) ==> Claimable(rows[id])
    {
      if id in left { assert Waiting(start[id], clock); }
    }
  }

  lemma RunnableIsLeft(start: Rows, rows: Rows, batch: set<JobId>, left: set<JobId>, clock: Instant, now: Instant)
    requires Batch(start, batch, clock) && Draining(start, rows, batch, left) && clock <= now
    ensures NothingToClaim(rows, {}, now) <==> left == {}
    ensures forall id :: FirstRunnable(rows, {}, now, id) ==> First(start, left, id)
  {
    DueIsWaiting(start, rows, batch, left, clock, now);
    forall id | id in rows
      ensures id in left <==> Runnable(rows[id], now)
    {
      assert id in left <==> id in Candidates(rows, {}, now);
    }
    if left != {} {
      var id :| id in left;
      assert Runnable(rows[id], now);
    }
  }

  lemma WaitingIsGranted(j: Job, clock: Instant, worker: Padded, lease: Duration, now: Instant)
    requires Waiting(j, clock) && clock <= now && worker.Trimmed() && 1 <= |worker.core| <= 100 && 0 < lease
    ensures !Unwritable(j, worker, lease, now)
  {
    GrantRefusedExactlyWhen(j, worker, lease, now);
  }

  lemma NothingStandsInTheWay(worker: BackgroundJobWorker, start: Rows, rows: Rows, batch: set<JobId>, left: set<JobId>,
                              clock: Instant, now: Instant)
    requires Ready(worker) && Batch(start, batch, clock) && Draining(start, rows, batch, left) && clock <= now
    ensures !CannotClaim(rows, {}, worker.worker, worker.lease, now)
  {
    DueIsWaiting(start, rows, batch, left, clock, now);
    forall id | id in left
      ensures !Unwritable(rows[id], worker.worker, worker.lease, now)
    {
      WaitingIsGranted(start[id], clock, worker.worker, worker.lease, now);
    }
  }

  /** The row that a cycle leaves behind when the handler completes the job. */
  function Completed(j: Job, worker: Padded, lease: Duration, result: Option<string>, tick: (Instant, Instant)): Job {
    AsSucceeded(AsGranted(j, worker, lease, tick.0), result, tick.1)
  }

  lemma CompletedIsCommitted(j: Job, clock: Instant, worker: Padded, lease: Duration, result: Option<string>,
                             tick: (Instant, Instant))
    requires Waiting(j, clock) && clock <= tick.0 <= tick.1 < tick.0 + lease
    requires worker.Trimmed() && 1 <= |worker.core| <= 100 && Bounded(result, 200)
    ensures RowReply(AsGranted(j, worker, lease, tick.0), Succeed(j.jobId, worker, result, tick.1)) ==
            Ok(Completed(j, worker, lease, result, tick))
    ensures DoneOnce(j, Completed(j, worker, lease, result, tick))
  {
    var granted := AsGranted(j, worker, lease, tick.0);
    var claim := Claim(j.jobId, worker, lease, tick.0);
    ClaimClean(j, claim, clock);
    WaitingIsGranted(j, clock, worker, lease, tick.0);
    OwnerClean(granted, Succeed(j.jobId, worker, result, tick.1), tick.0);
  }

  lemma CycleCompletes(worker: BackgroundJobWorker, c: Cycle, rows: Rows, clock: Instant, tick: (Instant, Instant))
    requires Ready(worker) && Closes(c, rows, worker.worker, tick.1)
    requires c.claim.lease == worker.lease && c.claim.at == tick.0
    requires c.claim.id in rows && Waiting(rows[c.claim.id], clock) && rows[c.claim.id].jobId == c.claim.id
    requires clock <= tick.0 <= tick.1 < tick.0 + worker.lease
    requires worker.ProperReport(c.granted, c.granted[c.claim.id], c.done, c.during, c.report, tick.1)
    ensures
      var j := rows[c.claim.id];
      var k := Completed(j, worker.worker, worker.lease, worker.handlers[j.kind].end.result, tick);
      c.before == c.granted && DoneOnce(j, k) && Answer(c.before[c.claim.id], c.report) == Reported(k)
      && c.before[c.claim.id := k] == rows[c.claim.id := k]
  {
    var j := rows[c.claim.id];
    StepRow(rows, c.claim, c.claim.id);
    var granted := c.granted[c.claim.id];
    assert granted == AsGranted(j, worker.worker, worker.lease, tick.0);
    assert c.during == [];
    var result := worker.handlers[j.kind].end.result;
    assert c.report == Succeed(c.claim.id, worker.worker, result, tick.1);
    CompletedIsCommitted(j, clock, worker.worker, worker.lease, result, tick);
  }

  lemma DrainOne(start: Rows, rows: Rows, batch: set<JobId>, left: set<JobId>, id: JobId, k: Job)
    requires Draining(start, rows, batch, left) && id in left && DoneOnce(start[id], k)
    ensures Draining(start, rows[id := k], batch, left - {id})
  {
  }

  /** The order in which the batch was completed, followed by any job that is still left. */
  predicate Drained(start: Rows, batch: set<JobId>, left: set<JobId>, order: seq<JobId>)
    requires batch <= start.Keys
  {
    && left <= batch && NoRepetition(order)
    && (forall id :: id in order ==> id in batch && id !in left)
    && (forall id :: id in batch && id !in left ==> id in order)
    && (forall i, k :: 0 <= i < k < |order| ==> order[i] in batch && order[k] in batch && !Before(start[order[k]], start[order[i]]))
    && (forall i, id :: 0 <= i < |order| && id in left ==> order[i] in batch && !Before(start[id], start[order[i]]))
  }

  lemma DrainedNext(start: Rows, batch: set<JobId>, left: set<JobId>, order: seq<JobId>, id: JobId)
    requires batch <= start.Keys && Drained(start, batch, left, order) && First(start, left, id)
    ensures Drained(start, batch, left - {id}, order + [id])
  {
  }

  /** Between two cycles of the overload loop. */
  predicate Midway(start: Rows, rows: Rows, batch: set<JobId>, left: set<JobId>, order: seq<JobId>,
                   completedIds: set<JobId>, total: nat) {
    && completedIds == batch - left && |left| + |order| == total
    && Draining(start, rows, batch, left) && Drained(start, batch, left, order)
  }

  lemma MidwayNext(start: Rows, rows: Rows, rows': Rows, batch: set<JobId>, left: set<JobId>, order: seq<JobId>,
                   completedIds: set<JobId>, total: nat, id: JobId)
    requires Midway(start, rows, batch, left, order, completedIds, total) && First(start, left, id)
    requires Draining(start, rows', batch, left - {id})
    ensures Midway(start, rows', batch, left - {id}, order + [id], completedIds + {id}, total)
  {
    DrainedNext(start, batch, left, order, id);
  }

  lemma MidwayFirst(start: Rows, batch: set<JobId>, total: nat)
    requires batch <= start.Keys && |batch| == total
    ensures Midway(start, start, batch, batch, [], {}, total)
  {
  }

  lemma MidwayLast(start: Rows, rows: Rows, batch: set<JobId>, left: set<JobId>, order: seq<JobId>,
                   completedIds: set<JobId>, total: nat)
    requires Midway(start, rows, batch, left, order, completedIds, total) && |order| == total
    ensures left == {} && completedIds == batch
  {
  }

  /**
   * The overload loop: one worker, one cycle per job.  Nothing it would raise can happen: each cycle completes one
   * job of the batch, in claim order and once, and the extra cycle at the end finds nothing to do.
   */
  method DrainOverloadBatch(worker: BackgroundJobWorker, jobIds: seq<JobId>, ticks: seq<(Instant, Instant)>,
                            ghost clock: Instant)
    returns (completedIds: set<JobId>, ghost order: seq<JobId>)
    requires worker.repository.Valid() && Ready(worker)
    requires NoRepetition(jobIds) && Batch(worker.repository.rows, AsSet(jobIds), clock)
    requires |ticks| == |jobIds| + 1 && Ticking(ticks, clock, worker.lease)
    modifies worker.repository
    ensures worker.repository.Valid() && completedIds == AsSet(jobIds)
    ensures Draining(old(worker.repository.rows), worker.repository.rows, completedIds, {})
    ensures Drained(old(worker.repository.rows), completedIds, {}, order) && |order| == |jobIds|
  {
    ghost var start, batch := worker.repository.rows, AsSet(jobIds);
    ghost var left := batch;
    BatchSize(jobIds);
    MidwayFirst(start, batch, |jobIds|);
    completedIds, order := {}, [];
    for i := 0 to |jobIds|
      invariant worker.repository.Valid() && |order| == i
      invariant Midway(start, worker.repository.rows, batch, left, order, completedIds, |jobIds|)
    {
      ghost var rows := worker.repository.rows;
      var completed := DrainCycle(worker, ticks[i], clock, start, batch, left);
      if completed.None? || !completed.value.status.Succeeded? || completed.value.startedAt.None? {
        assert false;
      }
      var id := completed.value.jobId;
      MidwayNext(start, rows, worker.repository.rows, batch, left, order, completedIds, |jobIds|, id);
      completedIds, left, order := completedIds + {id}, left - {id}, order + [id];
    }
    MidwayLast(start, worker.repository.rows, batch, left, order, completedIds, |jobIds|);
    var extra := DrainCycle(worker, ticks[|jobIds|], clock, start, batch, left);
    if extra.Some? || completedIds != AsSet(jobIds) {
      assert false;
    }
  }

  function AsSet<T>(s: seq<T>): set<T> {
    set x | x in s
  }

  lemma {:induction false} BatchSize<T>(s: seq<T>)
    requires NoRepetition(s)
    ensures |AsSet(s)| == |s|
  {
    if s != [] {
      var init, last := s[..|s| - 1], s[|s| - 1];
      BatchSize(init);
      assert AsSet(s) == AsSet(init) + {last};
    }
  }

  /** One cycle of the loop: it completes the first job that is left, and nothing happens once none is left. */
  method DrainCycle(worker: BackgroundJobWorker, tick: (Instant, Instant), ghost clock: Instant,
                    ghost start: Rows, ghost batch: set<JobId>, ghost left: set<JobId>)
    returns (completed: Option<Job>)
    requires worker.repository.Valid() && Ready(worker) && Batch(start, batch, clock)
    requires clock <= tick.0 <= tick.1 < tick.0 + worker.lease
    requires Draining(start, worker.repository.rows, batch, left)
    modifies worker.repository
    ensures worker.repository.Valid() && (completed.None? <==> left == {})
    ensures completed.None? ==> worker.repository.rows == old(worker.repository.rows)
    ensures completed.Some? ==>
      var id := completed.value.jobId;
      && id in left && First(start, left, id) && DoneOnce(start[id], completed.value)
      && Draining(start, worker.repository.rows, batch, left - {id})
  {
    ghost var rows, history := worker.repository.rows, worker.repository.history;
    DueIsWaiting(start, rows, batch, left, clock, tick.0);
    RunnableIsLeft(start, rows, batch, left, clock, tick.0);
    NothingStandsInTheWay(worker, start, rows, batch, left, clock, tick.0);
    var reply: CycleReply;
    ghost var p, cycle;
    reply, p, cycle := worker.RunOnce(tick.0, tick.1, {}, []);
    assert p.start == rows;
    SweepsDoNothing(rows, p.swept, tick.0);
    if cycle.NoGrant? {
      SweptRun(history, [], p.swept);
    } else {
      CycleCompletes(worker, cycle, rows, clock, tick);
      DrainOne(start, rows, batch, left, cycle.claim.id, reply.job);
    }
    completed := reply.Returned();
  }

  // ---- Plain statements ----

  /** A row of the table that the statement benchmark creates for itself. */
  datatype Line = Line(status: Status, runAfter: Instant, createdAt: Instant,
                       startedAt: Option<Instant>, finishedAt: Option<Instant>)
  {
    predicate Earlier(other: Line) {
      runAfter < other.runAfter || (runAfter == other.runAfter && createdAt < other.createdAt)
    }
  }

  /** The rows that the claim statement selects from, at a reading of the clock. */
  function Claimables(table: seq<Line>, now: Instant): set<nat> {
    set i: nat | i < |table| && table[i].status.Queued? && table[i].runAfter <= now
  }

  lemma EarliestExists(table: seq<Line>, ids: set<nat>) returns (id: nat)
    requires ids != {} && forall i :: i in ids ==> i < |table|
    ensures id in ids && forall o :: o in ids ==> !table[o].Earlier(table[id])
  {
    var any :| any in ids;
    id := any;
    if ids != {any} {
      var first := EarliestExists(table, ids - {any});
      if table[first].Earlier(table[any]) { id := first; }
      assert forall o :: o in ids ==> o == any || o in ids - {any};
    }
  }

  predicate QueuedLine(line: Line, now: Instant) {
    line.status.Queued? && line.runAfter <= line.createdAt <= now
  }

  predicate FinishedLine(line: Line, queued: Line) {
    && line.runAfter == queued.runAfter && line.createdAt == queued.createdAt
    && line.status.Succeeded? && line.startedAt.Some? && line.finishedAt.Some?
    && line.createdAt <= line.startedAt.value <= line.finishedAt.value
  }

  function Indices(n: nat): (s: set<nat>)
    ensures |s| == n && forall k: nat :: k in s <==> k < n
  {
    if n == 0 then {} else Indices(n - 1) + {n - 1}
  }

  /** Rows are claimed in order and each once; what was claimed is finished, what is left is still queued. */
  predicate Sweeping(queued: seq<Line>, table: seq<Line>, claimed: seq<nat>, left: set<nat>) {
    && |table| == |queued| && |claimed| + |left| == |queued| && NoRepetition(claimed)
    && (forall i :: 0 <= i < |claimed| ==> claimed[i] < |queued| && claimed[i] !in left)
    && (forall i: nat :: i < |queued| && i in left ==> table[i] == queued[i])
    && (forall i: nat :: i < |queued| && i !in left ==> FinishedLine(table[i], queued[i]))
    && (forall i: nat :: i in left ==> i < |queued|)
  }

  predicate Ordered(queued: seq<Line>, claimed: seq<nat>, left: set<nat>) {
    && (forall i :: 0 <= i < |claimed| ==> claimed[i] < |queued|)
    && (forall i, k :: 0 <= i < k < |claimed| ==> !queued[claimed[k]].Earlier(queued[claimed[i]]))
    && (forall i, k: nat :: 0 <= i < |claimed| && k in left && k < |queued| ==> !queued[k].Earlier(queued[claimed[i]]))
  }

  lemma SweepOne(queued: seq<Line>, table: seq<Line>, claimed: seq<nat>, left: set<nat>, id: nat, line: Line)
    requires Sweeping(queued, table, claimed, left) && id in left && FinishedLine(line, queued[id])
    ensures Sweeping(queued, table[id := line], claimed + [id], left - {id})
  {
  }

  lemma OrderOne(queued: seq<Line>, claimed: seq<nat>, left: set<nat>, id: nat)
    requires Ordered(queued, claimed, left) && id in left && id < |queued|
    requires forall o: nat :: o in left && o < |queued| ==> !queued[o].Earlier(queued[id])
    ensures Ordered(queued, claimed + [id], left - {id})
  {
  }

  /**
   * One claim statement and one finish statement.  The benchmark insists that the claim returns exactly one row:
   * it returns one, the first in order, because every queued row is due by now.
   */
  method ClaimAndFinish(queued: seq<Line>, table: seq<Line>, ghost claimed: seq<nat>, ghost left: set<nat>,
                        now: Instant, clock: (Instant, Instant))
    returns (table': seq<Line>, id: nat)
    requires Sweeping(queued, table, claimed, left) && left != {} && now <= clock.0 <= clock.1
    requires forall i :: 0 <= i < |queued| ==> QueuedLine(queued[i], now)
    ensures id in left && forall o: nat :: o in left && o < |queued| ==> !queued[o].Earlier(queued[id])
    ensures Sweeping(queued, table', claimed + [id], left - {id})
  {
    var ids := Claimables(table, clock.0);
    assert ids == left;
    ghost var first := EarliestExists(table, ids);
    id :| id in ids && forall o :: o in ids ==> !table[o].Earlier(table[id]);
    var running := table[id].(status := Running, startedAt := Some(clock.0));
    var finished := running.(status := Succeeded, finishedAt := Some(clock.1));
    SweepOne(queued, table, claimed, left, id, finished);
    table' := table[id := running][id := finished];
    assert table' == table[id := finished];
  }

  /**
   * The statement benchmark: `queued` are the inserted rows with their two readings of the clock, then follow as
   * many claims and finishes as rows, each with readings of its own.
   */
  method MeasureQueue(queued: seq<Line>, now: Instant, clock: seq<(Instant, Instant)>)
    returns (table: seq<Line>, claimed: seq<nat>)
    requires |clock| == |queued| && forall i :: 0 <= i < |queued| ==> QueuedLine(queued[i], now)
    requires forall i :: 0 <= i < |clock| ==> now <= clock[i].0 <= clock[i].1
    ensures Sweeping(queued, table, claimed, {}) && Ordered(queued, claimed, {})
  {
    table, claimed := queued, [];
    ghost var left := Indices(|queued|);
    for i := 0 to |queued|
      invariant |claimed| == i && Sweeping(queued, table, claimed, left) && Ordered(queued, claimed, left)
    {
      var id;
      table, id := ClaimAndFinish(queued, table, claimed, left, now, clock[i]);
      OrderOne(queued, claimed, left, id);
      claimed, left := claimed + [id], left - {id};
    }
    assert left == {};
  }
}
