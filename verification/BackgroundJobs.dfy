/** The durable background job: its lifecycle validator, the table checks, and the retry policy. */
module BackgroundJobs {
  import opened Prelude

  datatype Kind =
    | ExperimentExecution
    | WalkForwardExecution
    | MarketDataImport
    | MarketDataPoll
    | MarketDataReplay
    | MarketContextEvaluation
    | AlertEvaluation
    | DecisionEvaluation
    | DatasetFileImport
    | OptimizationExecution

  const MAX_ATTEMPTS := 10
  const DEFAULT_LEASE: Duration := 5 * 60 * SECOND

  type JobId = string

  datatype Status = Queued | Running | Succeeded | Failed | Cancelled

  /** Who worded a text: the queue and the worker themselves, or a handler. */
  datatype Wording =
    | AttemptsExhausted
    | HandlerFailed
    | UnsupportedKind
    | UnsupportedPayloadVersion
    | FromHandler(content: int)

  /** Error codes and messages matter to the queue by their wording and by their length. */
  datatype Text = Text(wording: Wording, length: nat)

  const EXHAUSTED_CODE := Text(AttemptsExhausted, 18)
  const EXHAUSTED_MESSAGE := Text(AttemptsExhausted, 52)

  datatype Job = Job(
    jobId: JobId,
    kind: Kind,
    payloadVersion: int,
    payload: map<string, string>,
    idempotencyKey: Option<string>,
    status: Status,
    progress: int,
    attempts: int,
    maxAttempts: int,
    runAfter: Instant,
    leaseOwner: Option<Padded>,
    leaseExpiresAt: Option<Instant>,
    cancelRequested: bool,
    resultReference: Option<string>,
    errorCode: Option<Text>,
    errorMessage: Option<Text>,
    createdAt: Instant,
    updatedAt: Instant,
    startedAt: Option<Instant>,
    finishedAt: Option<Instant>)
  {
    predicate IsTerminal() {
      status.Succeeded? || status.Failed? || status.Cancelled?
    }

    predicate NoOutcome() {
      resultReference.None? && errorCode.None? && errorMessage.None?
    }
  }

  predicate Bounded(text: Option<string>, limit: nat) {
    text.Some? ==> 1 <= |text.value| <= limit
  }

  /** The declared bounds of the single fields. */
  predicate FieldsValid(j: Job) {
    && 1 <= j.payloadVersion
    && Bounded(j.idempotencyKey, 200)
    && 0 <= j.progress <= 100
    && 0 <= j.attempts
    && 1 <= j.maxAttempts <= MAX_ATTEMPTS
    && (j.leaseOwner.Some? ==> 1 <= j.leaseOwner.value.Length() <= 100)
    && Bounded(j.resultReference, 200)
    && (j.errorCode.Some? ==> 1 <= j.errorCode.value.length <= 100)
    && (j.errorMessage.Some? ==> 1 <= j.errorMessage.value.length <= 500)
  }

  /** The cross-field lifecycle validator. */
  predicate LifecycleValid(j: Job) {
    && j.createdAt <= j.updatedAt
    && j.createdAt <= j.runAfter
    && j.leaseOwner.Some? == j.leaseExpiresAt.Some?
    && j.attempts <= j.maxAttempts
    && match j.status
       case Queued =>
         j.leaseOwner.None? && j.finishedAt.None? && j.NoOutcome()
       case Running =>
         && j.leaseOwner.Some? && j.startedAt.Some? && j.finishedAt.None?
         && 1 <= j.attempts && j.progress < 100
         && j.NoOutcome()
       case Succeeded =>
         && j.finishedAt.Some? && j.leaseOwner.None?
         && j.progress == 100 && j.errorCode.None? && j.errorMessage.None?
       case Failed =>
         && j.finishedAt.Some? && j.leaseOwner.None?
         && j.resultReference.None? && j.errorCode.Some? && j.errorMessage.Some?
       case Cancelled =>
         j.finishedAt.Some? && j.leaseOwner.None? && j.NoOutcome()
  }

  predicate Valid(j: Job) {
    FieldsValid(j) && LifecycleValid(j)
  }

  /** The check constraints of the job table, written independently of the validator above. */
  predicate TableChecks(j: Job) {
    && 0 <= j.progress <= 100
    && 0 <= j.attempts <= j.maxAttempts && 0 < j.maxAttempts <= 10
    && j.createdAt <= j.updatedAt
    && j.createdAt <= j.runAfter
    && (j.startedAt.Some? ==> j.createdAt <= j.startedAt.value)
    && (j.finishedAt.Some? ==>
          && j.createdAt <= j.finishedAt.value
          && (j.startedAt.Some? ==> j.startedAt.value <= j.finishedAt.value))
    && (if j.status.Running? then j.leaseOwner.Some? && j.leaseExpiresAt.Some?
        else j.leaseOwner.None? && j.leaseExpiresAt.None?)
    && j.IsTerminal() == j.finishedAt.Some?
    && (j.status.Succeeded? ==> j.progress == 100)
  }

  predicate RowOk(j: Job) {
    Valid(j) && TableChecks(j)
  }

  /** What the builder hands to `enqueue`; a run time before the creation time is refused by the validator. */
  function Build(jobId: JobId, kind: Kind, payload: map<string, string>, key: Option<string>,
                 maxAttempts: Option<int>, runAfter: Option<Instant>, now: Instant): (j: Job)
    ensures Valid(j) <==>
      && Bounded(key, 200)
      && 1 <= j.maxAttempts <= MAX_ATTEMPTS
      && (runAfter.Some? ==> now <= runAfter.value)
    ensures Valid(j) ==> RowOk(j)
  {
    Job(jobId, kind, 1, payload, key, Queued, 0, 0,
        if maxAttempts.Some? then maxAttempts.value else PolicyFor(kind).maxAttempts,
        if runAfter.Some? then runAfter.value else now,
        None, None, false, None, None, None, now, now, None, None)
  }

  /** The shape of every job the builder makes. */
  predicate FreshlyBuilt(j: Job) {
    && RowOk(j) && j.status.Queued? && j.progress == 0 && j.attempts == 0
    && !j.cancelRequested && j.startedAt.None? && j.updatedAt == j.createdAt
  }

  /** What is asked for is what is built: a queued job nobody has touched, due at once unless a later time is given. */
  lemma BuiltJobIsFresh(jobId: JobId, kind: Kind, payload: map<string, string>, key: Option<string>,
                        maxAttempts: Option<int>, runAfter: Option<Instant>, now: Instant)
    requires Valid(Build(jobId, kind, payload, key, maxAttempts, runAfter, now))
    ensures
      var j := Build(jobId, kind, payload, key, maxAttempts, runAfter, now);
      && FreshlyBuilt(j) && j.createdAt == now && j.payloadVersion == 1
      && j.jobId == jobId && j.kind == kind && j.payload == payload && j.idempotencyKey == key
      && (runAfter == Some(j.runAfter) || (runAfter.None? && j.runAfter == now))
      && (maxAttempts == Some(j.maxAttempts) || (maxAttempts.None? && j.maxAttempts == if kind.MarketDataImport? then 1 else 3))
  {
  }

  // ---- Retry policy ----

  datatype Policy = Policy(
    kind: Kind,
    maxAttempts: int,
    retryDelays: seq<Duration>,
    leaseDuration: Duration,
    supportedVersions: set<int>)

  predicate ValidPolicy(p: Policy) {
    && 1 <= p.maxAttempts <= MAX_ATTEMPTS
    && 0 < p.leaseDuration
    && |p.retryDelays| == p.maxAttempts - 1
    && (forall i :: 0 <= i < |p.retryDelays| ==> 0 <= p.retryDelays[i])
    && p.supportedVersions != {}
    && (forall v :: v in p.supportedVersions ==> 1 <= v)
  }

  /** The frozen catalogue: only the provider import is never retried automatically. */
  function PolicyFor(kind: Kind): (p: Policy)
    ensures ValidPolicy(p) && p.kind == kind
  {
    assert 1 in {1};
    if kind.MarketDataImport? then Policy(kind, 1, [], DEFAULT_LEASE, {1})
    else Policy(kind, 3, [5 * SECOND, 30 * SECOND], DEFAULT_LEASE, {1})
  }

  /** None is the refusal for a job that has not completed an attempt. */
  function RetryDelayAfter(p: Policy, attempts: int): (d: Option<Duration>)
    requires ValidPolicy(p)
    ensures d.None? <==> attempts < 1
    ensures d.Some? ==> 0 <= d.value
  {
    if attempts < 1 then None
    else if p.maxAttempts <= attempts then Some(0)
    else Some(p.retryDelays[attempts - 1])
  }

  function Sum(s: seq<Duration>): (total: Duration) {
    if s == [] then 0 else Sum(s[..|s| - 1]) + s[|s| - 1]
  }

  /** The delay accumulated over the first `k` automatic retries. */
  function BackoffAfter(p: Policy, k: nat): (total: Duration)
    requires ValidPolicy(p)
  {
    if k == 0 then 0 else BackoffAfter(p, k - 1) + RetryDelayAfter(p, k).value
  }

  /** The catalogue in numbers: two automatic retries after 5 and 30 seconds, and none for the provider import. */
  lemma RetriesOfEachKind(kind: Kind, k: nat)
    ensures BackoffAfter(PolicyFor(kind), k) ==
            if kind.MarketDataImport? || k == 0 then 0 else if k == 1 then 5_000_000 else 35_000_000
    ensures PolicyFor(kind).maxAttempts == if kind.MarketDataImport? then 1 else 3
    ensures PolicyFor(kind).leaseDuration == 300_000_000 && PolicyFor(kind).supportedVersions == {1}
  {
    var delays := PolicyFor(kind).retryDelays;
    BackoffIsAPrefixOfThePolicy(PolicyFor(kind), k);
    if !kind.MarketDataImport? && 0 < k {
      var used := delays[..Min(k, 2)];
      assert used == if k == 1 then [5 * SECOND] else [5 * SECOND, 30 * SECOND];
      assert used[..1] == [5 * SECOND];
    }
  }

  /** The budget of the job may exceed the budget of the policy: later retries then wait no longer. */
  lemma {:induction false} BackoffIsAPrefixOfThePolicy(p: Policy, k: nat)
    requires ValidPolicy(p)
    ensures BackoffAfter(p, k) == Sum(p.retryDelays[..Min(k, p.maxAttempts - 1)])
  {
    if k > 0 {
      BackoffIsAPrefixOfThePolicy(p, k - 1);
      if k < p.maxAttempts {
        var s := p.retryDelays[..k];
        assert s[..k - 1] == p.retryDelays[..k - 1];
      }
    }
  }
}
