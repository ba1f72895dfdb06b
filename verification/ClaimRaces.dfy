/**
 * Claim transactions that run at the same time, each session with its own reading of the clock.  A session selects
 * the first due row that no other transaction has locked, keeps it locked until it commits, starts over when the row
 * could only be ended, and raises when its write is refused.
 */
module ClaimRaces {
  import opened Prelude
  import opened BackgroundJobs
  import opened JobQueue
  import opened QueueSafety
  import opened JobRepositories

  type Session = nat

  datatype Phase =
    | Selecting              // about to run the select
    | Holding(id: JobId)     // the row is locked, the write is not committed yet
    | Won(id: JobId)         // returned the job
    | EmptyHanded            // returned nothing
    | Failing(id: JobId)     // raised, because the write was refused

  /** The table, the sessions, and the transactions committed so far. */
  datatype Race = Race(rows: Rows, phases: map<Session, Phase>, log: seq<Event>)

  datatype Setting = Setting(lease: Duration, workers: map<Session, Padded>, now: map<Session, Instant>)

  /** No session is so late that a lease granted in the race has run out by its clock. */
  predicate ValidSetting(s: Setting) {
    && 0 < s.lease && s.now.Keys == s.workers.Keys
    && (forall x :: x in s.workers ==> !s.workers[x].Blank())
    && (forall x, y :: x in s.now && y in s.now ==> s.now[x] < s.now[y] + s.lease)
  }

  function Locked(r: Race): set<JobId> {
    set x | x in r.phases && r.phases[x].Holding? :: r.phases[x].id
  }

  /** The select statement: any first candidate when one is unlocked, nothing otherwise. */
  ghost predicate Selects(s: Setting, r: Race, r': Race, x: Session) {
    && x in r.phases && r.phases[x].Selecting? && x in s.now && r'.rows == r.rows && r'.log == r.log
    && var ids := Candidates(r.rows, Locked(r), s.now[x]);
       if ids == {} then r'.phases == r.phases[x := EmptyHanded]
       else exists id :: First(r.rows, ids, id) && r'.phases == r.phases[x := Holding(id)]
  }

  /** What the session commits about the row that it has locked: a grant, or the end of a row that nobody may run. */
  function Transaction(s: Setting, j: Job, id: JobId, x: Session): Event
    requires x in s.workers && x in s.now
  {
    if Claimable(j) then Claim(id, s.workers[x], s.lease, s.now[x]) else Sweep(id, s.now[x])
  }

  /** The commit of one transaction of the queue; a refused one raises and gives up its lock. */
  ghost predicate Commits(s: Setting, r: Race, r': Race, x: Session) {
    && x in r.phases && r.phases[x].Holding? && x in s.workers && x in s.now && r.phases[x].id in r.rows
    && var id := r.phases[x].id;
       var e := Transaction(s, r.rows[id], id, x);
       && r'.rows == Step(r.rows, e) && r'.log == r.log + [e]
       && r'.phases == r.phases[x := if !Accepted(r.rows, e) then Failing(id) else if e.Claim? then Won(id) else Selecting]
  }

  ghost predicate Moves(s: Setting, r: Race, r': Race, x: Session) {
    Selects(s, r, r', x) || Commits(s, r, r', x)
  }

  /** An interleaving of the sessions: `order[i]` makes the step from `states[i]` to `states[i + 1]`. */
  ghost predicate Interleaving(s: Setting, states: seq<Race>, order: seq<Session>) {
    && |states| == |order| + 1
    && forall i :: 0 <= i < |order| ==> Moves(s, states[i], states[i + 1], order[i])
  }

  predicate Started(s: Setting, r: Race) {
    && r.phases.Keys == s.workers.Keys && r.log == []
    && forall x :: x in r.phases ==> r.phases[x].Selecting?
  }

  predicate DueForSome(s: Setting, j: Job) {
    exists x :: x in s.now && Due(j, s.now[x])
  }

  predicate DueForAll(s: Setting, j: Job) {
    forall x :: x in s.now ==> Due(j, s.now[x])
  }

  /** What the race is about: runnable jobs that are due at the earliest reading of the clock. */
  function Prizes(s: Setting, rows: Rows): set<JobId> {
    set id | id in rows && DueForAll(s, rows[id]) && Claimable(rows[id])
  }

  /** What can be won at all: runnable jobs that are due at the latest one. */
  function Chances(s: Setting, rows: Rows): set<JobId> {
    set id | id in rows && DueForSome(s, rows[id]) && Claimable(rows[id])
  }

  // ---- The effect of a commit ----

  /** What a commit does, with `k` the row that it writes if it is accepted. */
  predicate Effect(s: Setting, r: Race, r': Race, x: Session, k: Option<Job>)
    requires x in s.workers && x in s.now && x in r.phases && r.phases[x].Holding? && r.phases[x].id in r.rows
  {
    var id := r.phases[x].id;
    match k
    case None => r'.rows == r.rows && r'.phases == r.phases[x := Failing(id)]
    case Some(job) =>
      && r'.rows == r.rows[id := job]
      && if Claimable(r.rows[id]) then
           job == AsGranted(r.rows[id], s.workers[x], s.lease, s.now[x]) && r'.phases == r.phases[x := Won(id)]
         else job.IsTerminal() && r'.phases == r.phases[x := Selecting]
  }

  lemma CommitHasEffect(s: Setting, r: Race, r': Race, x: Session) returns (k: Option<Job>)
    requires ValidSetting(s) && Commits(s, r, r', x)
    ensures Effect(s, r, r', x, k)
    ensures Due(r.rows[r.phases[x].id], s.now[x]) ==>
      (k.None? <==> Unwritable(r.rows[r.phases[x].id], s.workers[x], s.lease, s.now[x]))
  {
    var id := r.phases[x].id;
    var j := r.rows[id];
    var e := Transaction(s, j, id, x);
    var reply := RowReply(j, e);
    assert ReplyTo(r.rows, e) == reply;
    if reply.Ok? {
      ReplyIsNext(j, e);
      k := Some(reply.job);
    } else {
      k := None;
    }
  }

  // ---- The invariant ----

  predicate HasJob(p: Phase) {
    p.Holding? || p.Won?
  }

  ghost predicate Taken(r: Race, id: JobId) {
    exists x :: x in r.phases && HasJob(r.phases[x]) && r.phases[x].id == id
  }

  predicate NobodyFails(r: Race) {
    forall x :: x in r.phases ==> !r.phases[x].Failing?
  }

  /**
   * A lock rests on a row that is still as it was, and due; a winner's job was runnable and due to it, and is leased
   * to it; and a session raises over a due row that it cannot write.
   */
  predicate PhaseOk(s: Setting, start: Rows, rows: Rows, x: Session, p: Phase) {
    && x in s.workers && x in s.now
    && match p
       case Holding(id) => id in start && id in rows && rows[id] == start[id] && Due(start[id], s.now[x])
       case Won(id) =>
         && id in start && Due(start[id], s.now[x]) && Claimable(start[id])
         && id in rows && rows[id] == AsGranted(start[id], s.workers[x], s.lease, s.now[x])
       case Failing(id) =>
         id in start && Due(start[id], s.now[x]) && Unwritable(start[id], s.workers[x], s.lease, s.now[x])
       case _ => true
  }

  ghost predicate PhasesOk(s: Setting, start: Rows, r: Race) {
    r.phases.Keys == s.workers.Keys && forall x :: x in r.phases ==> PhaseOk(s, start, r.rows, x, r.phases[x])
  }

  ghost predicate Exclusive(r: Race) {
    forall x, y :: x in r.phases && y in r.phases && x != y && HasJob(r.phases[x]) && HasJob(r.phases[y]) ==>
      r.phases[x].id != r.phases[y].id
  }

  /** Whatever was written is due to nobody any more. */
  ghost predicate WritesOk(s: Setting, start: Rows, r: Race) {
    && r.rows.Keys == start.Keys
    && (forall id :: id in start && r.rows[id] != start[id] ==> !DueForSome(s, r.rows[id]))
  }

  /** And a prize is only written by the session that took it. */
  ghost predicate PrizesOk(s: Setting, start: Rows, r: Race) {
    r.rows.Keys == start.Keys && forall id :: id in Prizes(s, start) && r.rows[id] != start[id] ==> Taken(r, id)
  }

  ghost predicate AllTaken(s: Setting, start: Rows, r: Race) {
    forall id :: id in Prizes(s, start) ==> Taken(r, id)
  }

  /** As long as nobody fails, a session only comes back with nothing once every prize is taken. */
  ghost predicate NothingLost(s: Setting, start: Rows, r: Race) {
    NobodyFails(r) && (exists x :: x in r.phases && r.phases[x].EmptyHanded?) ==> AllTaken(s, start, r)
  }

  ghost predicate Inv(s: Setting, start: Rows, r: Race) {
    && PhasesOk(s, start, r) && Exclusive(r) && WritesOk(s, start, r) && PrizesOk(s, start, r) && NothingLost(s, start, r)
  }

  lemma GrantedIsNotDue(s: Setting, j: Job, x: Session)
    requires ValidSetting(s) && x in s.workers
    ensures !DueForSome(s, AsGranted(j, s.workers[x], s.lease, s.now[x]))
  {
  }

  /** A session that had no job, and gets at most one that nobody has, leaves the others what they have. */
  lemma TakenStays(r: Race, r': Race, x: Session, p: Phase, id: JobId)
    requires x in r.phases && r'.phases == r.phases[x := p] && Taken(r, id)
    requires HasJob(r.phases[x]) && r.phases[x].id == id ==> HasJob(p) && p.id == id
    ensures Taken(r', id)
  {
    var y :| y in r.phases && HasJob(r.phases[y]) && r.phases[y].id == id;
    assert y in r'.phases && HasJob(r'.phases[y]) && r'.phases[y].id == id;
  }

  lemma NothingLostStays(s: Setting, start: Rows, r: Race, r': Race, x: Session, p: Phase)
    requires NothingLost(s, start, r) && x in r.phases && r'.phases == r.phases[x := p] && !r.phases[x].Failing?
    requires p.EmptyHanded? ==> AllTaken(s, start, r')
    requires AllTaken(s, start, r) ==> AllTaken(s, start, r') || p.Failing?
    ensures NothingLost(s, start, r')
  {
    if NobodyFails(r') {
      assert r'.phases[x] == p;
      assert forall y :: y in r.phases ==> y == x || r'.phases[y] == r.phases[y];
      assert NobodyFails(r);
      if y :| y in r'.phases && r'.phases[y].EmptyHanded? && y != x {
        assert y in r.phases && r.phases[y].EmptyHanded?;
      }
    }
  }

  // ---- A select ----

  lemma FreePrizeIsCandidate(s: Setting, start: Rows, r: Race, x: Session, id: JobId)
    requires PrizesOk(s, start, r) && id in Prizes(s, start) && x in s.now
    ensures Taken(r, id) || id in Candidates(r.rows, Locked(r), s.now[x])
  {
    if !Taken(r, id) {
      assert r.rows[id] == start[id];
    }
  }

  /** A candidate is as it was at the start, and not taken: it is neither locked nor leased to a winner. */
  lemma CandidateIsFree(s: Setting, start: Rows, r: Race, x: Session, id: JobId)
    requires ValidSetting(s) && PhasesOk(s, start, r) && WritesOk(s, start, r)
    requires x in s.now && id in Candidates(r.rows, Locked(r), s.now[x])
    ensures id in start && r.rows[id] == start[id] && Due(start[id], s.now[x]) && !Taken(r, id)
  {
    assert DueForSome(s, r.rows[id]);
    forall y | y in r.phases && HasJob(r.phases[y])
      ensures r.phases[y].id != id
    {
      assert PhaseOk(s, start, r.rows, y, r.phases[y]);
      if r.phases[y].Holding? {
        assert r.phases[y].id in Locked(r);
      } else {
        GrantedIsNotDue(s, start[r.phases[y].id], y);
      }
    }
  }

  lemma PhaseChangeKeepsTaken(s: Setting, start: Rows, r: Race, r': Race, x: Session, p: Phase)
    requires x in r.phases && !HasJob(r.phases[x]) && r'.rows == r.rows && r'.phases == r.phases[x := p]
    requires PrizesOk(s, start, r)
    ensures PrizesOk(s, start, r') && (AllTaken(s, start, r) ==> AllTaken(s, start, r'))
  {
    forall id | Taken(r, id)
      ensures Taken(r', id)
    {
      TakenStays(r, r', x, p, id);
    }
  }

  /** A session that takes a free job, or none, without writing anything. */
  lemma PhaseChangeKeepsInv(s: Setting, start: Rows, r: Race, r': Race, x: Session, p: Phase)
    requires Inv(s, start, r) && x in r.phases && r.phases[x].Selecting? && !p.Failing?
    requires r'.rows == r.rows && r'.phases == r.phases[x := p] && PhaseOk(s, start, r.rows, x, p)
    requires HasJob(p) ==> !Taken(r, p.id)
    requires p.EmptyHanded? ==> AllTaken(s, start, r)
    ensures Inv(s, start, r')
  {
    assert forall y :: y in r.phases && HasJob(r.phases[y]) ==> Taken(r, r.phases[y].id);
    PhaseChangeKeepsTaken(s, start, r, r', x, p);
    NothingLostStays(s, start, r, r', x, p);
  }

  lemma SelectKeepsInv(s: Setting, start: Rows, r: Race, r': Race, x: Session)
    requires ValidSetting(s) && Inv(s, start, r) && Selects(s, r, r', x)
    ensures Inv(s, start, r')
  {
    var ids := Candidates(r.rows, Locked(r), s.now[x]);
    if ids == {} {
      forall id | id in Prizes(s, start)
        ensures Taken(r, id)
      {
        FreePrizeIsCandidate(s, start, r, x, id);
      }
      PhaseChangeKeepsInv(s, start, r, r', x, EmptyHanded);
    } else {
      var id :| First(r.rows, ids, id) && r'.phases == r.phases[x := Holding(id)];
      CandidateIsFree(s, start, r, x, id);
      PhaseChangeKeepsInv(s, start, r, r', x, Holding(id));
    }
  }

  // ---- A commit ----

  lemma FailureKeepsInv(s: Setting, start: Rows, r: Race, r': Race, x: Session)
    requires ValidSetting(s) && Inv(s, start, r) && x in r.phases && r.phases[x].Holding? && x in s.now
    requires r.phases[x].id in r.rows && Effect(s, r, r', x, None)
    requires Due(r.rows[r.phases[x].id], s.now[x])
    requires Unwritable(r.rows[r.phases[x].id], s.workers[x], s.lease, s.now[x])
    ensures Inv(s, start, r')
  {
    var id := r.phases[x].id;
    assert PhaseOk(s, start, r.rows, x, r.phases[x]);
    forall o | o in Prizes(s, start) && r.rows[o] != start[o]
      ensures Taken(r', o)
    {
      assert o != id;
      TakenStays(r, r', x, Failing(id), o);
    }
    NothingLostStays(s, start, r, r', x, Failing(id));
  }

  /** A session whose row was not written is as it was. */
  lemma OtherPhaseOk(s: Setting, start: Rows, rows: Rows, id: JobId, k: Job, y: Session, p: Phase)
    requires PhaseOk(s, start, rows, y, p) && (HasJob(p) ==> p.id != id)
    ensures PhaseOk(s, start, rows[id := k], y, p)
  {
  }

  predicate Writes(s: Setting, r: Race, r': Race, x: Session, k: Job, p: Phase) {
    && x in s.workers && x in s.now && x in r.phases && r.phases[x].Holding? && r.phases[x].id in r.rows
    && Effect(s, r, r', x, Some(k)) && r'.phases == r.phases[x := p] && r'.rows == r.rows[r.phases[x].id := k]
  }

  lemma WrittenPhaseOk(s: Setting, start: Rows, r: Race, r': Race, x: Session, k: Job, p: Phase)
    requires Writes(s, r, r', x, k, p) && PhaseOk(s, start, r.rows, x, r.phases[x])
    ensures PhaseOk(s, start, r'.rows, x, p)
    ensures HasJob(p) ==> p.id == r.phases[x].id
  {
    assert r'.phases[x] == p;
  }

  lemma WriteKeepsPhases(s: Setting, start: Rows, r: Race, r': Race, x: Session, k: Job, p: Phase)
    requires PhasesOk(s, start, r) && Exclusive(r) && Writes(s, r, r', x, k, p)
    ensures PhasesOk(s, start, r') && Exclusive(r')
  {
    WrittenPhaseOk(s, start, r, r', x, k, p);
    forall y | y in r.phases && y != x
      ensures PhaseOk(s, start, r'.rows, y, r'.phases[y])
    {
      OtherPhaseOk(s, start, r.rows, r.phases[x].id, k, y, r.phases[y]);
    }
  }

  lemma WriteIsDueToNobody(s: Setting, r: Race, r': Race, x: Session, k: Job, p: Phase)
    requires ValidSetting(s) && Writes(s, r, r', x, k, p)
    ensures !DueForSome(s, k)
  {
    GrantedIsNotDue(s, r.rows[r.phases[x].id], x);
  }

  /** After a write a prize is taken if it was before: the only lock that is given up is on a row that cannot run. */
  lemma WriteKeepsTaken(s: Setting, start: Rows, r: Race, r': Race, x: Session, k: Job, p: Phase, o: JobId)
    requires PhasesOk(s, start, r) && Writes(s, r, r', x, k, p) && o in Prizes(s, start) && Taken(r, o)
    ensures Taken(r', o)
  {
    assert PhaseOk(s, start, r.rows, x, r.phases[x]);
    assert r'.phases[x] == p;
    TakenStays(r, r', x, p, o);
  }

  lemma WriteKeepsInv(s: Setting, start: Rows, r: Race, r': Race, x: Session, k: Job, p: Phase)
    requires ValidSetting(s) && Inv(s, start, r) && Writes(s, r, r', x, k, p)
    ensures Inv(s, start, r')
  {
    WriteKeepsPhases(s, start, r, r', x, k, p);
    WriteIsDueToNobody(s, r, r', x, k, p);
    assert Taken(r, r.phases[x].id);
    forall o | o in Prizes(s, start) && Taken(r, o)
      ensures Taken(r', o)
    {
      WriteKeepsTaken(s, start, r, r', x, k, p, o);
    }
    NothingLostStays(s, start, r, r', x, p);
  }

  lemma CommitKeepsInv(s: Setting, start: Rows, r: Race, r': Race, x: Session)
    requires ValidSetting(s) && Inv(s, start, r) && Commits(s, r, r', x)
    ensures Inv(s, start, r')
  {
    var k := CommitHasEffect(s, r, r', x);
    assert PhaseOk(s, start, r.rows, x, r.phases[x]);
    if k.None? {
      FailureKeepsInv(s, start, r, r', x);
    } else {
      WriteKeepsInv(s, start, r, r', x, k.value, r'.phases[x]);
    }
  }

  lemma {:induction false} InterleavingKeepsInv(s: Setting, states: seq<Race>, order: seq<Session>, n: nat)
    requires ValidSetting(s) && Interleaving(s, states, order) && Started(s, states[0]) && n <= |order|
    ensures Inv(s, states[0].rows, states[n])
  {
    if n > 0 {
      InterleavingKeepsInv(s, states, order, n - 1);
      var r, r', x := states[n - 1], states[n], order[n - 1];
      assert Moves(s, r, r', x);
      if Selects(s, r, r', x) {
        SelectKeepsInv(s, states[0].rows, r, r', x);
      } else {
        CommitKeepsInv(s, states[0].rows, r, r', x);
      }
    }
  }

  // ---- Races are runs of the queue ----

  /** The rows of a race are those of a run of the queue: nothing is written that the queue would not write. */
  lemma {:induction false} RaceIsARun(s: Setting, states: seq<Race>, order: seq<Session>, n: nat, history: seq<Event>)
    requires Interleaving(s, states, order) && Started(s, states[0]) && n <= |order|
    requires states[0].rows == Replay(history)
    ensures states[n].rows == Replay(history + states[n].log)
    ensures TableOk(states[n].rows)
  {
    if n > 0 {
      RaceIsARun(s, states, order, n - 1, history);
      var r, r', x := states[n - 1], states[n], order[n - 1];
      assert Moves(s, r, r', x);
      if Commits(s, r, r', x) {
        var e := r'.log[|r.log|];
        RunOne(map[], history + r.log, e);
        assert history + r'.log == history + r.log + [e];
      }
    } else {
      assert history + states[0].log == history;
    }
    ReachableTableIsOk(history + states[n].log);
  }

  // ---- Results ----

  function Winners(r: Race): set<Session> {
    set x | x in r.phases && r.phases[x].Won?
  }

  /** In every interleaving, whatever the readings of the clock, two sessions never return the same job. */
  lemma ClaimsAreExclusive(s: Setting, states: seq<Race>, order: seq<Session>, x: Session, y: Session)
    requires ValidSetting(s) && Interleaving(s, states, order) && Started(s, states[0])
    requires x in Winners(states[|order|]) && y in Winners(states[|order|]) && x != y
    ensures states[|order|].phases[x].id != states[|order|].phases[y].id
  {
    InterleavingKeepsInv(s, states, order, |order|);
  }

  /** A winner's write is one that the queue accepts: a job that cannot be granted is won by nobody. */
  lemma WinnersCouldWrite(s: Setting, states: seq<Race>, order: seq<Session>, history: seq<Event>, x: Session)
    requires ValidSetting(s) && Interleaving(s, states, order) && Started(s, states[0])
    requires states[0].rows == Replay(history) && x in Winners(states[|order|])
    ensures
      var id := states[|order|].phases[x].id;
      x in s.now && x in s.workers && id in states[0].rows
      && !Unwritable(states[0].rows[id], s.workers[x], s.lease, s.now[x])
  {
    var r := states[|order|];
    InterleavingKeepsInv(s, states, order, |order|);
    RaceIsARun(s, states, order, |order|, history);
    assert PhaseOk(s, states[0].rows, r.rows, x, r.phases[x]);
    assert RowOk(r.rows[r.phases[x].id]);
  }

  /** A session raises only over a row that is due to it and whose write is refused. */
  lemma FailureNamesTheRow(s: Setting, states: seq<Race>, order: seq<Session>, x: Session)
    requires ValidSetting(s) && Interleaving(s, states, order) && Started(s, states[0])
    requires x in states[|order|].phases && states[|order|].phases[x].Failing?
    ensures
      var start, id := states[0].rows, states[|order|].phases[x].id;
      x in s.now && x in s.workers && id in start && Due(start[id], s.now[x])
      && Unwritable(start[id], s.workers[x], s.lease, s.now[x])
  {
    InterleavingKeepsInv(s, states, order, |order|);
    assert PhaseOk(s, states[0].rows, states[|order|].rows, x, states[|order|].phases[x]);
  }

  lemma SoundRowIsWritable(j: Job, worker: Padded, lease: Duration, now: Instant, clock: Instant)
    requires SoundRow(j, clock) && clock <= now && Due(j, now) && 0 < lease && 1 <= |worker.core| <= 100
    ensures !Unwritable(j, worker, lease, now)
  {
    if Claimable(j) {
      ClaimClean(j, Claim(j.jobId, worker, lease, now), clock);
    } else {
      SweepClean(j, Sweep(j.jobId, now), clock);
    }
  }

  /** On the tables that the service itself produces no session ever raises. */
  lemma SoundRaceNeverFails(s: Setting, states: seq<Race>, order: seq<Session>, clock: Instant)
    requires ValidSetting(s) && Interleaving(s, states, order) && Started(s, states[0])
    requires SoundTable(states[0].rows, clock)
    requires forall x :: x in s.now ==> clock <= s.now[x] && |s.workers[x].core| <= 100
    ensures NobodyFails(states[|order|])
  {
    var start, r := states[0].rows, states[|order|];
    forall x | x in r.phases
      ensures !r.phases[x].Failing?
    {
      if r.phases[x].Failing? {
        FailureNamesTheRow(s, states, order, x);
        SoundRowIsWritable(start[r.phases[x].id], s.workers[x], s.lease, s.now[x], clock);
      }
    }
  }

  predicate Settled(r: Race) {
    forall x :: x in r.phases ==> r.phases[x].Won? || r.phases[x].EmptyHanded? || r.phases[x].Failing?
  }

  function WonJobs(r: Race): set<JobId> {
    set x | x in Winners(r) :: r.phases[x].id
  }

  lemma {:induction false} DistinctJobsCount(r: Race, some: set<Session>)
    requires Exclusive(r) && some <= Winners(r)
    ensures |set x | x in some :: r.phases[x].id| == |some|
  {
    if some != {} {
      var x :| x in some;
      var rest := some - {x};
      DistinctJobsCount(r, rest);
      var jobs := set y | y in rest :: r.phases[y].id;
      assert r.phases[x].id !in jobs;
      assert (set y | y in some :: r.phases[y].id) == jobs + {r.phases[x].id};
    }
  }

  lemma SubsetCount<T>(a: set<T>, b: set<T>)
    requires a <= b
    ensures |a| <= |b|
  {
    assert b == a + (b - a);
  }

  lemma WinnerCount(all: set<Session>, winners: set<Session>, jobs: set<JobId>, prizes: set<JobId>, chances: set<JobId>)
    requires winners <= all && jobs <= chances && |jobs| == |winners|
    requires winners == all || prizes <= jobs
    ensures Min(|all|, |prizes|) <= |winners| <= Min(|all|, |chances|)
  {
    SubsetCount(winners, all);
    SubsetCount(jobs, chances);
    if prizes <= jobs {
      SubsetCount(prizes, jobs);
    }
  }

  lemma EmptyHandedMeansAllWon(s: Setting, start: Rows, r: Race, x: Session)
    requires NothingLost(s, start, r) && Settled(r) && NobodyFails(r) && x in r.phases && r.phases[x].EmptyHanded?
    ensures Prizes(s, start) <= WonJobs(r)
  {
    assert AllTaken(s, start, r);
    forall id | id in Prizes(s, start)
      ensures id in WonJobs(r)
    {
      assert Taken(r, id);
      var y :| y in r.phases && HasJob(r.phases[y]) && r.phases[y].id == id;
      assert y in Winners(r);
    }
  }

  lemma WonJobsWereChances(s: Setting, start: Rows, r: Race)
    requires s.now.Keys == s.workers.Keys && PhasesOk(s, start, r) && Exclusive(r)
    ensures WonJobs(r) <= Chances(s, start) && |WonJobs(r)| == |Winners(r)| && Winners(r) <= s.workers.Keys
  {
    DistinctJobsCount(r, Winners(r));
    forall id | id in WonJobs(r)
      ensures id in Chances(s, start)
    {
      var x :| x in Winners(r) && r.phases[x].id == id;
      assert PhaseOk(s, start, r.rows, x, r.phases[x]);
      assert Due(start[id], s.now[x]);
    }
  }

  lemma SettledRace(s: Setting, start: Rows, r: Race)
    requires r.phases.Keys == s.workers.Keys && NothingLost(s, start, r) && Settled(r) && NobodyFails(r)
    ensures Winners(r) == s.workers.Keys || Prizes(s, start) <= WonJobs(r)
  {
    if x :| x in r.phases && r.phases[x].EmptyHanded? {
      EmptyHandedMeansAllWon(s, start, r, x);
    } else {
      assert forall x :: x in r.phases ==> x in Winners(r);
    }
  }

  /**
   * Skipping locked rows loses nothing.  When every session has returned, there are as many winners as there are
   * sessions or jobs that were due at the earliest reading, whichever is fewer, and no more than jobs that were due
   * at the latest.
   */
  lemma EveryPrizeIsWon(s: Setting, states: seq<Race>, order: seq<Session>)
    requires ValidSetting(s) && Interleaving(s, states, order) && Started(s, states[0])
    requires Settled(states[|order|]) && NobodyFails(states[|order|])
    ensures
      var start, winners := states[0].rows, Winners(states[|order|]);
      && Min(|s.workers.Keys|, |Prizes(s, start)|) <= |winners| <= Min(|s.workers.Keys|, |Chances(s, start)|)
      && (winners == s.workers.Keys || Prizes(s, start) <= WonJobs(states[|order|]))
  {
    var start, r := states[0].rows, states[|order|];
    InterleavingKeepsInv(s, states, order, |order|);
    WonJobsWereChances(s, start, r);
    SettledRace(s, start, r);
    WinnerCount(s.workers.Keys, Winners(r), WonJobs(r), Prizes(s, start), Chances(s, start));
  }

  /** With one reading for all of them the number is exact; so one due job has exactly one winner. */
  lemma OneClockIsExact(s: Setting, states: seq<Race>, order: seq<Session>, at: Instant)
    requires ValidSetting(s) && Interleaving(s, states, order) && Started(s, states[0])
    requires Settled(states[|order|]) && NobodyFails(states[|order|])
    requires s.now.Keys != {} && forall x :: x in s.now ==> s.now[x] == at
    ensures |Winners(states[|order|])| == Min(|s.workers.Keys|, |Prizes(s, states[0].rows)|)
  {
    var start := states[0].rows;
    EveryPrizeIsWon(s, states, order);
    var some :| some in s.now;
    forall id | id in start
      ensures DueForSome(s, start[id]) <==> DueForAll(s, start[id])
    {
      if DueForAll(s, start[id]) { assert Due(start[id], s.now[some]); }
    }
    assert Prizes(s, start) == Chances(s, start);
  }
}
