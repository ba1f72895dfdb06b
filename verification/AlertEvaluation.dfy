/** The evaluation of one rule against one source, and the job that asks for it. */
module AlertEvaluation {
  import opened Prelude
  import opened CanonicalOrder
  import opened MarketContext
  import opened AlertContracts
  import BackgroundJobs
  import JobQueue
  import QueueSafety

  datatype Outcome = Outcome(evaluation: Evaluation, draft: Option<Draft>)

  /** What makes a rule and a source impossible to evaluate any further. */
  function Blockers(rule: Rule, source: Source): set<Reason> {
    (if !rule.enabled then {RuleDisabled} else {})
    + (if !source.consumable then {SourceNotConsumable} else {})
    + (if source.expiresAt <= source.evaluatedAt then {SourceExpired} else {})
  }

  /** The reasons of the evaluation, as a set: those of the first of three stages that has any. */
  function ReasonsFor(rule: Rule, source: Source, publication: seq<Reason>): set<Reason> {
    if Blockers(rule, source) != {} then Blockers(rule, source)
    else if !Matches(rule.condition, source) then {ConditionNotMatched}
    else set r | r in publication
  }

  /** The evaluation that belongs to those reasons. */
  function Evaluated(h: Digests, rule: Rule, source: Source, publication: seq<Reason>): Outcome {
    var reference := Reference(rule);
    var identity := IdentityOf(reference, source);
    var reasons := ReasonsFor(rule, source, publication);
    var draft := DraftBody(h.alertId(identity), reference, source, rule.severity, rule.name, rule.description,
                           source.evaluatedAt, Expiry(source, source.evaluatedAt, rule.expiresAfterSeconds));
    var body := EvaluationBody(h.evaluationId(identity), reference, source, reasons == {}, InOrder(reasons),
                               if reasons == {} then Some(h.alertId(identity)) else None,
                               if reasons == {} then Some(h.draft(draft)) else None, source.evaluatedAt);
    Outcome(Evaluation(body, h.evaluation(body)),
            if reasons == {} then Some(Draft(draft, h.draft(draft))) else None)
  }

  /** The publication reasons are looked at, and one of them is given twice. */
  predicate Garbled(rule: Rule, source: Source, publication: seq<Reason>) {
    Blockers(rule, source) == {} && Matches(rule.condition, source) && !NoRepetition(publication)
  }

  lemma StrictSorted(reasons: seq<Reason>)
    ensures Strict(Sorted(reasons, ReasonRank), ReasonRank) <==> NoRepetition(reasons)
    ensures NoRepetition(reasons) ==> Sorted(reasons, ReasonRank) == InOrder(set r | r in reasons)
  {
    ReasonsAreRanked();
    SortedIsStrictExactlyWhen(reasons, ReasonRank);
    if NoRepetition(reasons) {
      StrictIsCanonical(Sorted(reasons, ReasonRank), InOrder(set r | r in reasons), ReasonRank);
    }
  }

  lemma InOrderHasNoRepetition(reasons: set<Reason>)
    ensures NoRepetition(InOrder(reasons)) && (set r | r in InOrder(reasons)) == reasons
    ensures InOrder(reasons) == [] <==> reasons == {}
  {
    var s := InOrder(reasons);
    assert forall i, k :: 0 <= i < k < |s| ==> ReasonRank(s[i]) < ReasonRank(s[k]);
    if s == [] {
      assert forall r :: r in reasons ==> r in s;
    } else {
      assert s[0] in reasons;
    }
  }

  lemma SomeReason(reasons: seq<Reason>)
    ensures (set r | r in reasons) == {} <==> reasons == []
  {
    if reasons != [] {
      var all := set r | r in reasons;
      assert reasons[0] in all;
    }
  }

  /** What a valid reference says: consumable exactly if ready, unexpired and of its hour, and otherwise what is not so. */
  lemma SourceIsValidExactlyWhen(s: Source)
    ensures ValidSource(s) <==>
      && 0.0 <= s.confidence <= 1.0
      && s.unavailable == (if s.expiresAt <= s.evaluatedAt then [AssessmentExpired] else [])
                          + (if s.status == Ready then [] else [AssessmentNotReady])
                          + (if s.eventTime == s.expectedAsOf then [] else [BoundaryMismatch])
      && (s.consumable <==> s.status == Ready && s.evaluatedAt < s.expiresAt && s.eventTime == s.expectedAsOf)
  {
    ShortcomingsInOrder(s);
    ListedIsStrict(UNAVAILABLE_REASONS, Shortcomings(s), UnavailableRank);
  }

  lemma ShortcomingsInOrder(s: Source)
    ensures Listed(UNAVAILABLE_REASONS, Shortcomings(s)) ==
      (if s.expiresAt <= s.evaluatedAt then [AssessmentExpired] else [])
      + (if s.status == Ready then [] else [AssessmentNotReady])
      + (if s.eventTime == s.expectedAsOf then [] else [BoundaryMismatch])
  {
    ListedThree(AssessmentExpired, AssessmentNotReady, BoundaryMismatch, Shortcomings(s));
  }

  lemma ListedThree<T(!new)>(a: T, b: T, c: T, chosen: set<T>)
    ensures Listed([a, b, c], chosen) ==
      (if a in chosen then [a] else []) + (if b in chosen then [b] else []) + (if c in chosen then [c] else [])
  {
    assert [a, b, c][..2] == [a, b] && [a, b][..1] == [a] && [a][..0] == [];
    assert Listed([a], chosen) == if a in chosen then [a] else [];
    assert Listed([a, b], chosen) == Listed([a], chosen) + if b in chosen then [b] else [];
  }

  /** An expired source is never consumable. */
  lemma ExpiredIsNotConsumable(source: Source)
    requires ValidSource(source)
    ensures source.expiresAt <= source.evaluatedAt ==> !source.consumable
    ensures source.consumable ==> source.unavailable == [] && source.evaluatedAt < source.expiresAt
  {
    if source.expiresAt <= source.evaluatedAt {
      assert AssessmentExpired == UNAVAILABLE_REASONS[0];
      assert AssessmentExpired in source.unavailable;
    }
  }

  /**
   * A suppression is recorded exactly with reasons that are not repeated and name everything that blocks the
   * evaluation: a disabled rule, a source that cannot be consumed, an expired one.
   */
  lemma SuppressedExactlyWhen(h: Digests, rule: Rule, source: Source, reasons: seq<Reason>)
    ensures Suppressed(h, rule, source, reasons).Ok? <==>
      && reasons != [] && NoRepetition(reasons)
      && (!rule.enabled ==> RuleDisabled in reasons)
      && (!source.consumable ==> SourceNotConsumable in reasons)
      && (source.expiresAt <= source.evaluatedAt ==> SourceExpired in reasons)
  {
    ReasonsAreRanked();
    SortedIsStrictExactlyWhen(reasons, ReasonRank);
    SortedIsEmptyExactlyWhen(reasons);
    SuppressionIsValid(h, rule, source, Sorted(reasons, ReasonRank));
  }

  lemma SuppressionIsValid(h: Digests, rule: Rule, source: Source, sorted: seq<Reason>)
    ensures
      CheckedEvaluation(h, EvaluationBody(h.evaluationId(IdentityOf(Reference(rule), source)), Reference(rule), source,
                                          false, sorted, None, None, source.evaluatedAt)).Ok? <==>
      && sorted != [] && Strict(sorted, ReasonRank)
      && (!rule.enabled ==> RuleDisabled in sorted)
      && (!source.consumable ==> SourceNotConsumable in sorted)
      && (source.expiresAt <= source.evaluatedAt ==> SourceExpired in sorted)
  {
  }

  /** The validator accepts no other suppression than the one that is recorded for its reasons. */
  lemma ValidSuppressionIsTheRecordedOne(h: Digests, rule: Rule, source: Source, e: Evaluation)
    requires e.body.rule == Reference(rule) && e.body.source == source && !e.body.published
    ensures ValidEvaluation(h, e) <==> Suppressed(h, rule, source, e.body.reasons) == Ok(e)
  {
    var reasons := e.body.reasons;
    StrictSorted(reasons);
    if ValidEvaluation(h, e) {
      SortedStrict(reasons);
    }
  }

  lemma SortedStrict(reasons: seq<Reason>)
    requires Strict(reasons, ReasonRank)
    ensures Sorted(reasons, ReasonRank) == reasons
  {
    ReasonsAreRanked();
    SortedAscending(reasons, ReasonRank);
    SortedIsStrictExactlyWhen(reasons, ReasonRank);
    assert NoRepetition(reasons) by {
      assert forall i, k :: 0 <= i < k < |reasons| ==> ReasonRank(reasons[i]) < ReasonRank(reasons[k]);
    }
    StrictIsCanonical(Sorted(reasons, ReasonRank), reasons, ReasonRank);
  }

  /** Nor any other publication of a draft than the one that is recorded for it, and none that is blocked. */
  lemma ValidPublicationIsTheRecordedOne(h: Digests, d: Draft, e: Evaluation)
    requires ValidDraft(h, d) && d.body.createdAt == d.body.source.evaluatedAt
    requires e.body.rule == d.body.rule && e.body.source == d.body.source && e.body.published
    requires e.body.draftChecksum == Some(d.checksum)
    ensures ValidEvaluation(h, e) <==> Published(h, d) == Ok(e)
  {
  }

  lemma BlockedIsNotPublished(h: Digests, e: Evaluation)
    requires !e.body.rule.enabled || !e.body.source.consumable || e.body.source.expiresAt <= e.body.evaluatedAt
    requires e.body.published
    ensures !ValidEvaluation(h, e)
  {
  }

  lemma SortedIsEmptyExactlyWhen(reasons: seq<Reason>)
    ensures Sorted(reasons, ReasonRank) == [] <==> reasons == []
  {
    assert |multiset(Sorted(reasons, ReasonRank))| == |multiset(reasons)|;
  }

  lemma SuppressedIsValid(h: Digests, rule: Rule, source: Source, reasons: seq<Reason>)
    requires reasons != [] && Blockers(rule, source) <= set r | r in reasons
    ensures Suppressed(h, rule, source, reasons) ==
      if !NoRepetition(reasons) then Err(Invalid)
      else
        var body := EvaluationBody(h.evaluationId(IdentityOf(Reference(rule), source)), Reference(rule), source, false,
                                   InOrder(set r | r in reasons), None, None, source.evaluatedAt);
        Ok(Evaluation(body, h.evaluation(body)))
  {
    SuppressedExactlyWhen(h, rule, source, reasons);
    StrictSorted(reasons);
  }

  lemma PublishedIsValid(h: Digests, rule: Rule, source: Source)
    requires ValidRule(rule) && ValidSource(source) && Blockers(rule, source) == {} && Matches(rule.condition, source)
    ensures
      var spec := Evaluated(h, rule, source, []);
      && spec.draft.Some? && BuildDraft(h, rule, source, rule.name, rule.description, source.evaluatedAt) == Ok(spec.draft.value)
      && Published(h, spec.draft.value) == Ok(spec.evaluation)
  {
    ExpiredIsNotConsumable(source);
    assert ReasonsFor(rule, source, []) == {};
    InOrderHasNoRepetition({});
  }

  /** The evaluation, which collects its first reasons in a local set. */
  method EvaluateAlert(h: Digests, rule: Rule, source: Source, publication: seq<Reason>) returns (r: Built<Outcome>)
    requires ValidRule(rule) && ValidSource(source)
    ensures r == if Garbled(rule, source, publication) then Err(Invalid) else Ok(Evaluated(h, rule, source, publication))
  {
    var reasons: set<Reason> := {};
    if !rule.enabled { reasons := reasons + {RuleDisabled}; }
    if !source.consumable { reasons := reasons + {SourceNotConsumable}; }
    if source.expiresAt <= source.evaluatedAt { reasons := reasons + {SourceExpired}; }
    assert reasons == Blockers(rule, source);
    if reasons != {} {
      r := SuppressedOutcome(h, rule, source, InOrder(reasons));
      InOrderHasNoRepetition(reasons);
      return;
    }
    if !Matches(rule.condition, source) {
      assert {ConditionNotMatched} == set r | r in [ConditionNotMatched];
      r := SuppressedOutcome(h, rule, source, [ConditionNotMatched]);
      return;
    }
    if publication != [] {
      assert publication[0] in ReasonsFor(rule, source, publication);
      r := SuppressedOutcome(h, rule, source, publication);
      return;
    }
    PublishedIsValid(h, rule, source);
    var draft := BuildDraft(h, rule, source, rule.name, rule.description, source.evaluatedAt);
    var evaluation := Published(h, draft.value);
    r := Ok(Outcome(evaluation.value, Some(draft.value)));
  }

  method SuppressedOutcome(h: Digests, rule: Rule, source: Source, reasons: seq<Reason>) returns (r: Built<Outcome>)
    requires reasons != [] && Blockers(rule, source) <= set r | r in reasons
    ensures r.Err? <==> !NoRepetition(reasons)
    ensures r.Err? ==> r == Err(Invalid)
    ensures r.Ok? ==> r.value.draft.None? && Ok(r.value.evaluation) == Suppressed(h, rule, source, reasons)
    ensures r.Ok? ==>
      var body := EvaluationBody(h.evaluationId(IdentityOf(Reference(rule), source)), Reference(rule), source, false,
                                 InOrder(set r | r in reasons), None, None, source.evaluatedAt);
      r.value.evaluation == Evaluation(body, h.evaluation(body))
  {
    SuppressedIsValid(h, rule, source, reasons);
    var evaluation := Suppressed(h, rule, source, reasons);
    r := if evaluation.Ok? then Ok(Outcome(evaluation.value, None)) else Err(evaluation.refusal);
  }

  // ---- The job that asks for an evaluation ----

  /** The intent of the job: one rule, one source, captured at the time of the request. */
  datatype Intent = Intent(rule: RuleReference, source: Source, requestedAt: Instant)

  predicate ValidIntent(i: Intent) {
    i.source.evaluatedAt == i.requestedAt
  }

  /** What the job checks of the outcome before it is stored. */
  predicate ResultAccepted(h: Digests, intent: Intent, outcome: Outcome) {
    && outcome.evaluation.body.rule == intent.rule && outcome.evaluation.body.source == intent.source
    && match outcome.draft
       case None => outcome.evaluation.body.alertId.None?
       case Some(draft) => Published(h, draft) == Ok(outcome.evaluation)
  }

  /** Whatever is evaluated passes the validators of the records and of the job. */
  lemma EvaluationPassesEveryValidator(h: Digests, rule: Rule, source: Source, publication: seq<Reason>)
    requires ValidRule(rule) && ValidSource(source)
    ensures
      var outcome := Evaluated(h, rule, source, publication);
      && ValidEvaluation(h, outcome.evaluation)
      && (outcome.draft.Some? ==> ValidDraft(h, outcome.draft.value))
      && ResultAccepted(h, Intent(Reference(rule), source, source.evaluatedAt), outcome)
  {
    var reasons := ReasonsFor(rule, source, publication);
    ExpiredIsNotConsumable(source);
    InOrderHasNoRepetition(reasons);
    SomeReason(publication);
    if reasons == {} {
      PublishedIsValid(h, rule, source);
    } else {
      assert InOrder(reasons) != [];
    }
  }

  /**
   * An alert is published exactly for an enabled rule and a consumable source with one of its trends, one of its
   * volatilities and enough confidence, when nothing suppresses it; the reasons of any other evaluation never name an
   * expired source without saying that it cannot be consumed, unless the publication policy itself brought the expiry up.
   */
  lemma PublishesExactlyWhen(h: Digests, rule: Rule, source: Source, publication: seq<Reason>)
    requires ValidRule(rule) && ValidSource(source)
    ensures
      var outcome := Evaluated(h, rule, source, publication);
      var body := outcome.evaluation.body;
      && body.published == outcome.draft.Some? == body.alertId.Some? == body.draftChecksum.Some?
      && (outcome.draft.Some? <==>
            rule.enabled && source.consumable && source.trend in rule.condition.trends
            && source.volatility in rule.condition.volatilities
            && rule.condition.minimumConfidence <= source.confidence && publication == [])
      && (SourceExpired in body.reasons && SourceExpired !in publication ==> SourceNotConsumable in body.reasons)
  {
    ExpiredIsNotConsumable(source);
    SomeReason(publication);
  }

  lemma ReasonStands(rule: Rule, source: Source, publication: seq<Reason>, x: Reason)
    ensures
      var wanted := rule.condition;
      var blocked := !rule.enabled || !source.consumable || source.expiresAt <= source.evaluatedAt;
      var matched := source.trend in wanted.trends && source.volatility in wanted.volatilities
                     && wanted.minimumConfidence <= source.confidence;
      x in ReasonsFor(rule, source, publication) <==>
        match x
        case RuleDisabled => !rule.enabled || (!blocked && matched && x in publication)
        case SourceNotConsumable => !source.consumable || (!blocked && matched && x in publication)
        case SourceExpired => source.expiresAt <= source.evaluatedAt || (!blocked && matched && x in publication)
        case ConditionNotMatched => !blocked && (!matched || x in publication)
        case _ => !blocked && matched && x in publication
  {
    BlockedExactlyWhen(rule, source);
  }

  lemma BlockedExactlyWhen(rule: Rule, source: Source)
    ensures Blockers(rule, source) == {} <==>
      rule.enabled && source.consumable && source.evaluatedAt < source.expiresAt
  {
    if !rule.enabled { assert RuleDisabled in Blockers(rule, source); }
    if !source.consumable { assert SourceNotConsumable in Blockers(rule, source); }
    if source.expiresAt <= source.evaluatedAt { assert SourceExpired in Blockers(rule, source); }
  }

  /** The reasons of an evaluation are those of the first of three stages that has any. */
  lemma ReasonIsGivenExactlyWhen(h: Digests, rule: Rule, source: Source, publication: seq<Reason>, x: Reason)
    ensures
      var wanted := rule.condition;
      var blocked := !rule.enabled || !source.consumable || source.expiresAt <= source.evaluatedAt;
      var matched := source.trend in wanted.trends && source.volatility in wanted.volatilities
                     && wanted.minimumConfidence <= source.confidence;
      x in Evaluated(h, rule, source, publication).evaluation.body.reasons <==>
        match x
        case RuleDisabled => !rule.enabled || (!blocked && matched && x in publication)
        case SourceNotConsumable => !source.consumable || (!blocked && matched && x in publication)
        case SourceExpired => source.expiresAt <= source.evaluatedAt || (!blocked && matched && x in publication)
        case ConditionNotMatched => !blocked && (!matched || x in publication)
        case _ => !blocked && matched && x in publication
  {
    ReasonStands(rule, source, publication, x);
  }

  /** With an injective digest the job accepts one result for its intent: the outcome with its own draft. */
  lemma ResultIsAcceptedExactlyWhen(h: Digests, rule: Rule, source: Source, publication: seq<Reason>, intent: Intent,
                                    draft: Option<Draft>)
    requires ValidRule(rule) && ValidSource(source) && (draft.Some? ==> ValidDraft(h, draft.value))
    requires forall a, b :: h.draft(a) == h.draft(b) ==> a == b
    ensures
      var outcome := Evaluated(h, rule, source, publication);
      ResultAccepted(h, intent, outcome.(draft := draft)) <==>
        intent.rule == Reference(rule) && intent.source == source && draft == outcome.draft
  {
    EvaluationPassesEveryValidator(h, rule, source, publication);
  }

  /** A published alert expects a trend, so that its outcome is never left undetermined. */
  lemma PublishedTrendIsDetermined(h: Digests, rule: Rule, source: Source, publication: seq<Reason>)
    requires ValidRule(rule) && ValidSource(source) && Evaluated(h, rule, source, publication).draft.Some?
    ensures !Evaluated(h, rule, source, publication).draft.value.body.source.trend.Undetermined?
  {
    PublishesExactlyWhen(h, rule, source, publication);
  }

  // ---- Idempotent requests ----

  /** A stored market-context assessment. */
  datatype Assessment = Assessment(
    eventId: string, asOf: Instant, expiresAt: Instant, status: AssessmentStatus, trend: Trend,
    volatility: Volatility, confidence: real)

  const HOUR: Duration := 3600 * SECOND

  /** Whole seconds since 1970, cut towards zero. */
  function WholeSeconds(at: Instant): int {
    if 0 <= at then at / SECOND else -(-at / SECOND)
  }

  /** The hour boundary that an up-to-date assessment carries. */
  function Boundary(at: Instant): Instant {
    WholeSeconds(at) / 3600 * HOUR
  }

  /** From 1970 on this is the start of the hour; before, cutting towards zero may put it up to a second ahead. */
  lemma BoundaryIsTheHour(at: Instant)
    ensures Boundary(at) % HOUR == 0 && at - HOUR < Boundary(at) < at + SECOND
    ensures 0 <= at ==> Boundary(at) <= at
  {
  }

  /** Why the product view calls an assessment unavailable, worked out from the assessment and the clock. */
  function Unavailability(a: Assessment, at: Instant): (reasons: set<UnavailableReason>) {
    var stale := if a.asOf == Boundary(at) then {} else {BoundaryMismatch};
    var expired := if at < a.expiresAt then stale else stale + {AssessmentExpired};
    match a.status
    case Ready => expired
    case InsufficientData => expired + {AssessmentNotReady}
    case Stale => expired + {AssessmentNotReady}
  }

  /** The source reference that is captured from the product view of an assessment at the time of a request. */
  function Captured(a: Assessment, at: Instant): (s: Source)
    ensures s.evaluatedAt == at && s.eventId == a.eventId && s.eventTime == a.asOf && s.expiresAt == a.expiresAt
    ensures s.status == a.status && s.trend == a.trend && s.volatility == a.volatility && s.confidence == a.confidence
  {
    var reasons := Listed(UNAVAILABLE_REASONS, Unavailability(a, at));
    Source(a.eventId, a.asOf, a.expiresAt, at, Boundary(at), a.status, a.trend, a.volatility, a.confidence,
           reasons == [], reasons)
  }

  /** What the view worked out is what the reference works out again from its own fields. */
  lemma CapturedSourceIsValid(a: Assessment, at: Instant)
    requires 0.0 <= a.confidence <= 1.0
    ensures ValidSource(Captured(a, at))
    ensures Captured(a, at).consumable <==> a.status.Ready? && at < a.expiresAt && a.asOf == Boundary(at)
  {
    var s := Captured(a, at);
    assert Unavailability(a, at) == Shortcomings(s);
    ListedIsStrict(UNAVAILABLE_REASONS, Unavailability(a, at), UnavailableRank);
    NothingUnavailable(Unavailability(a, at));
  }

  lemma NothingUnavailable(reasons: set<UnavailableReason>)
    ensures Listed(UNAVAILABLE_REASONS, reasons) == [] <==> reasons == {}
  {
    var all := UNAVAILABLE_REASONS;
    var listed := Listed(all, reasons);
    assert listed != [] ==> listed[0] in listed;
    if reasons != {} {
      var r :| r in reasons;
      assert all[UnavailableRank(r)] == r;
      assert r in listed;
    }
  }

  /** The durable job for one request; `encode` is the form in which the queue keeps the intent. */
  function RequestJob(h: Digests, encode: Intent -> map<string, string>, jobId: string, rule: Rule, a: Assessment,
                      requestedAt: Instant): BackgroundJobs.Job
  {
    var intent := Intent(Reference(rule), Captured(a, requestedAt), requestedAt);
    BackgroundJobs.Build(jobId, BackgroundJobs.AlertEvaluation, encode(intent),
                         Some(h.jobKey(IdentityOf(intent.rule, intent.source))), None, None, requestedAt)
  }

  /** The checks of a request before it is enqueued. */
  predicate EnqueueAccepted(h: Digests, job: BackgroundJobs.Job, intent: Intent) {
    && job.kind.AlertEvaluation? && job.status.Queued? && ValidIntent(intent)
    && job.createdAt == intent.requestedAt && job.runAfter == intent.requestedAt
    && job.idempotencyKey == Some(h.jobKey(IdentityOf(intent.rule, intent.source)))
  }

  /** Every request passes the checks of its enqueue, and its job those of the queue if the key fits. */
  lemma RequestIsAccepted(h: Digests, encode: Intent -> map<string, string>, jobId: string, rule: Rule, a: Assessment,
                          requestedAt: Instant)
    ensures
      var intent := Intent(Reference(rule), Captured(a, requestedAt), requestedAt);
      var job := RequestJob(h, encode, jobId, rule, a, requestedAt);
      && EnqueueAccepted(h, job, intent)
      && (QueueSafety.WellFormed(JobQueue.Enqueue(job, requestedAt)) <==>
            1 <= |h.jobKey(IdentityOf(intent.rule, intent.source))| <= 200)
  {
  }

  /**
   * Under an intent exactly those jobs are accepted that agree with the built one in kind, status, key and times; and
   * a job that was built for one intent is accepted under another only for the same identity and time.
   */
  lemma EnqueueAcceptsExactly(h: Digests, encode: Intent -> map<string, string>, jobId: string, rule: Rule, a: Assessment,
                              requestedAt: Instant, other: BackgroundJobs.Job, elsewhere: Intent)
    ensures
      var intent := Intent(Reference(rule), Captured(a, requestedAt), requestedAt);
      var job := RequestJob(h, encode, jobId, rule, a, requestedAt);
      && (EnqueueAccepted(h, other, intent) <==>
            other.kind == job.kind && other.status == job.status && other.idempotencyKey == job.idempotencyKey
            && other.createdAt == job.createdAt && other.runAfter == job.runAfter)
      && (EnqueueAccepted(h, job, elsewhere) <==>
            && elsewhere.requestedAt == requestedAt == elsewhere.source.evaluatedAt
            && h.jobKey(Identity(elsewhere.rule.ruleId, elsewhere.rule.version, elsewhere.source.eventId))
               == h.jobKey(Identity(rule.ruleId, rule.version, a.eventId)))
  {
  }

  /**
   * Requests for the same rule version and source event share one job, whenever they are made and however they
   * interleave with the rest of the queue: the later one creates nothing, and the intent of the first is kept.
   */
  lemma RequestsCollapse(h: Digests, encode: Intent -> map<string, string>, history: seq<JobQueue.Event>,
                         between: seq<JobQueue.Event>, first: JobQueue.Event, second: JobQueue.Event,
                         rule: Rule, a: Assessment, firstId: string, secondId: string, early: Instant, late: Instant)
    requires first == JobQueue.Enqueue(RequestJob(h, encode, firstId, rule, a, early), early)
    requires second == JobQueue.Enqueue(RequestJob(h, encode, secondId, rule, a, late), late)
    requires JobQueue.Accepted(JobQueue.Replay(history), first)
    ensures
      var rows := JobQueue.Replay(history);
      var after := JobQueue.Run(JobQueue.Step(rows, first), between);
      var id := JobQueue.ReplyTo(rows, first).job.jobId;
      && JobQueue.Accepted(after, second) && JobQueue.ReplyTo(after, second).job.jobId == id
      && !QueueSafety.Created(after, second) && JobQueue.Step(after, second) == after
      && id in after && (QueueSafety.Created(rows, first) ==> after[id].payload == first.job.payload)
  {
    var rows := JobQueue.Replay(history);
    QueueSafety.EnqueueIsIdempotent(history, first, between, second);
    QueueSafety.ReachableTableIsOk(history);
    QueueSafety.StepOk(rows, first);
    QueueSafety.IdentityIsPermanent(JobQueue.Step(rows, first), between, JobQueue.ReplyTo(rows, first).job.jobId);
  }

  /** Requests for another rule version or source event never collapse, as long as the key tells identities apart. */
  lemma OtherRequestsDoNotCollapse(h: Digests, encode: Intent -> map<string, string>, rule: Rule, a: Assessment,
                                   other: Rule, b: Assessment, id: string, otherId: string, at: Instant, otherAt: Instant)
    requires forall x, y :: h.jobKey(x) == h.jobKey(y) ==> x == y
    requires rule.ruleId != other.ruleId || rule.version != other.version || a.eventId != b.eventId
    ensures !JobQueue.SameKey(RequestJob(h, encode, id, rule, a, at), RequestJob(h, encode, otherId, other, b, otherAt))
  {
    assert IdentityOf(Reference(rule), Captured(a, at)) != IdentityOf(Reference(other), Captured(b, otherAt));
  }
}
