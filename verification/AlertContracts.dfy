/** Alert rules, the market-context sources they watch, and the drafts they publish. */
module AlertContracts {
  import opened Prelude
  import opened CanonicalOrder
  import opened MarketContext

  datatype Severity = Info | Warning | Critical

  datatype Reason =
    | ConditionNotMatched
    | CooldownActive
    | Duplicate
    | DuringQuietHours
    | RuleDisabled
    | Snoozed
    | SourceExpired
    | SourceNotConsumable

  const REASONS := [ConditionNotMatched, CooldownActive, Duplicate, DuringQuietHours, RuleDisabled, Snoozed,
                    SourceExpired, SourceNotConsumable]

  function ReasonRank(r: Reason): int {
    match r
    case ConditionNotMatched => 0
    case CooldownActive => 1
    case Duplicate => 2
    case DuringQuietHours => 3
    case RuleDisabled => 4
    case Snoozed => 5
    case SourceExpired => 6
    case SourceNotConsumable => 7
  }

  lemma ReasonsAreRanked()
    ensures Injective(ReasonRank) && Strict(REASONS, ReasonRank) && forall r :: r in REASONS
  {
    forall r
      ensures r in REASONS
    {
      assert REASONS[ReasonRank(r)] == r;
    }
  }

  /** A set of reasons in the order of their names. */
  function InOrder(reasons: set<Reason>): (s: seq<Reason>)
    ensures forall r :: r in s <==> r in reasons
    ensures Strict(s, ReasonRank)
  {
    ReasonsAreRanked();
    ListedIsStrict(REASONS, reasons, ReasonRank);
    Listed(REASONS, reasons)
  }

  /** What identifies an alert, its evaluation and the job that evaluates it: one rule version, one source event. */
  datatype Identity = Identity(ruleId: string, ruleVersion: int, eventId: string)

  datatype Source = Source(
    eventId: string,
    eventTime: Instant,
    expiresAt: Instant,
    evaluatedAt: Instant,
    expectedAsOf: Instant,
    status: AssessmentStatus,
    trend: Trend,
    volatility: Volatility,
    confidence: real,
    consumable: bool,
    unavailable: seq<UnavailableReason>)

  /** Why a source cannot be consumed, as the reference works it out again. */
  function Shortcomings(s: Source): set<UnavailableReason> {
    (if !s.status.Ready? then {AssessmentNotReady} else {})
    + (if s.expiresAt <= s.evaluatedAt then {AssessmentExpired} else {})
    + (if s.eventTime != s.expectedAsOf then {BoundaryMismatch} else {})
  }

  predicate ValidSource(s: Source) {
    && 0.0 <= s.confidence <= 1.0
    && Strict(s.unavailable, UnavailableRank)
    && s.unavailable == Listed(UNAVAILABLE_REASONS, Shortcomings(s))
    && s.consumable == (s.unavailable == [])
  }

  datatype Condition = Condition(trends: seq<Trend>, volatilities: seq<Volatility>, minimumConfidence: real)

  predicate ValidCondition(c: Condition) {
    && c.trends != [] && Undetermined !in c.trends && Strict(c.trends, TrendRank)
    && c.volatilities != [] && Unknown !in c.volatilities && Strict(c.volatilities, VolatilityRank)
    && 0.0 < c.minimumConfidence <= 1.0
  }

  predicate Matches(c: Condition, s: Source) {
    s.consumable && s.trend in c.trends && s.volatility in c.volatilities && c.minimumConfidence <= s.confidence
  }

  datatype Rule = Rule(
    ruleId: string,
    version: int,
    supersedes: Option<int>,
    name: Padded,
    description: Padded,
    enabled: bool,
    severity: Severity,
    condition: Condition,
    expiresAfterSeconds: int,
    checksum: string)

  predicate ValidRule(r: Rule) {
    && 1 <= r.version
    && (r.version == 1 ==> r.supersedes.None?)
    && (1 < r.version ==> r.supersedes == Some(r.version - 1))
    && !r.name.Blank() && r.name.Trimmed() && r.name.Length() <= 100
    && !r.description.Blank() && r.description.Trimmed() && r.description.Length() <= 500
    && ValidCondition(r.condition)
    && 60 <= r.expiresAfterSeconds <= 86_400
  }

  /** One version of a rule; every version but the first supersedes the one before it. */
  function BuildRule(ruleId: string, version: int, name: Padded, description: Padded, enabled: bool, severity: Severity,
                     condition: Condition, expiresAfterSeconds: int, checksum: string): (r: Option<Rule>)
    ensures r.Some? ==> ValidRule(r.value)
  {
    var rule := Rule(ruleId, version, if 1 < version then Some(version - 1) else None, name.Strip(), description.Strip(),
                     enabled, severity, condition, expiresAfterSeconds, checksum);
    if name.Length() <= 100 && description.Length() <= 500 && ValidRule(rule) then Some(rule) else None
  }

  /** Trends stand in the order of their names: ranging, down, up. */
  predicate TrendBefore(a: Trend, b: Trend) {
    (a == Ranging && (b == Down || b == Up)) || (a == Down && b == Up)
  }

  /** And volatilities: high, low, normal. */
  predicate VolatilityBefore(a: Volatility, b: Volatility) {
    (a == High && (b == Low || b == Normal)) || (a == Low && b == Normal)
  }

  predicate Wanted(c: Condition) {
    && c.trends != [] && Undetermined !in c.trends
    && (forall i, k :: 0 <= i < k < |c.trends| ==> TrendBefore(c.trends[i], c.trends[k]))
    && c.volatilities != [] && Unknown !in c.volatilities
    && (forall i, k :: 0 <= i < k < |c.volatilities| ==> VolatilityBefore(c.volatilities[i], c.volatilities[k]))
    && 0.0 < c.minimumConfidence <= 1.0
  }

  lemma ConditionIsValidExactlyWhen(c: Condition)
    ensures ValidCondition(c) <==> Wanted(c)
  {
    if Undetermined !in c.trends {
      forall i, k | 0 <= i < k < |c.trends|
        ensures TrendBefore(c.trends[i], c.trends[k]) <==> TrendRank(c.trends[i]) < TrendRank(c.trends[k])
      {
        assert c.trends[i] in c.trends && c.trends[k] in c.trends;
      }
    }
    if Unknown !in c.volatilities {
      forall i, k | 0 <= i < k < |c.volatilities|
        ensures VolatilityBefore(c.volatilities[i], c.volatilities[k]) <==>
          VolatilityRank(c.volatilities[i]) < VolatilityRank(c.volatilities[k])
      {
        assert c.volatilities[i] in c.volatilities && c.volatilities[k] in c.volatilities;
      }
    }
  }

  /** Which rules can be built; the validator then accepts no other rule than the built one. */
  lemma RuleIsBuiltExactlyWhen(ruleId: string, version: int, name: Padded, description: Padded, enabled: bool,
                               severity: Severity, condition: Condition, expiresAfterSeconds: int, checksum: string)
    ensures
      BuildRule(ruleId, version, name, description, enabled, severity, condition, expiresAfterSeconds, checksum).Some? <==>
      && 1 <= version && name.core != "" && name.Length() <= 100 && description.core != "" && description.Length() <= 500
      && Wanted(condition) && 60 <= expiresAfterSeconds <= 86_400
  {
    ConditionIsValidExactlyWhen(condition);
  }

  lemma ValidRuleIsTheBuiltOne(r: Rule)
    ensures ValidRule(r) <==>
      BuildRule(r.ruleId, r.version, r.name, r.description, r.enabled, r.severity, r.condition, r.expiresAfterSeconds,
                r.checksum) == Some(r)
  {
  }

  datatype RuleReference = RuleReference(
    ruleId: string, version: int, enabled: bool, severity: Severity, expiresAfterSeconds: int, checksum: string)

  function Reference(r: Rule): RuleReference {
    RuleReference(r.ruleId, r.version, r.enabled, r.severity, r.expiresAfterSeconds, r.checksum)
  }

  function IdentityOf(r: RuleReference, s: Source): Identity {
    Identity(r.ruleId, r.version, s.eventId)
  }

  datatype DraftBody = DraftBody(
    alertId: string,
    rule: RuleReference,
    source: Source,
    severity: Severity,
    title: Padded,
    message: Padded,
    createdAt: Instant,
    expiresAt: Instant)

  datatype Draft = Draft(body: DraftBody, checksum: string)

  /** The published or suppressed outcome of one evaluation. */
  datatype EvaluationBody = EvaluationBody(
    evaluationId: string,
    rule: RuleReference,
    source: Source,
    published: bool,
    reasons: seq<Reason>,
    alertId: Option<string>,
    draftChecksum: Option<string>,
    evaluatedAt: Instant)

  datatype Evaluation = Evaluation(body: EvaluationBody, checksum: string)

  /** The digests of identities and records; nothing is known about them but that they are functions. */
  datatype Digests = Digests(
    alertId: Identity -> string,
    evaluationId: Identity -> string,
    jobKey: Identity -> string,
    draft: DraftBody -> string,
    evaluation: EvaluationBody -> string)

  /** Why a builder refuses: a reason of its own, or a record that fails its validators. */
  datatype Refusal = Because(reason: Reason) | Invalid

  datatype Built<+T> = Ok(value: T) | Err(refusal: Refusal)

  // ---- Drafts ----

  function Expiry(source: Source, createdAt: Instant, expiresAfterSeconds: int): Instant {
    Min(source.expiresAt, createdAt + expiresAfterSeconds * SECOND)
  }

  predicate ValidText(t: Padded, limit: nat) {
    !t.Blank() && t.Trimmed() && t.Length() <= limit
  }

  predicate ValidDraft(h: Digests, d: Draft) {
    var b := d.body;
    && b.rule.enabled
    && b.source.consumable && b.source.unavailable == []
    && b.source.evaluatedAt <= b.createdAt < b.source.expiresAt
    && b.expiresAt == Expiry(b.source, b.createdAt, b.rule.expiresAfterSeconds)
    && b.severity == b.rule.severity
    && ValidText(b.title, 140) && ValidText(b.message, 1000)
    && b.alertId == h.alertId(IdentityOf(b.rule, b.source))
    && d.checksum == h.draft(b)
  }

  function BuildDraft(h: Digests, rule: Rule, source: Source, title: Padded, message: Padded, createdAt: Instant)
    : (r: Built<Draft>)
    ensures r.Ok? ==> ValidDraft(h, r.value) && Matches(rule.condition, r.value.body.source)
  {
    if !rule.enabled then Err(Because(RuleDisabled))
    else if !source.consumable then Err(Because(SourceNotConsumable))
    else if source.expiresAt <= createdAt then Err(Because(SourceExpired))
    else if !Matches(rule.condition, source) then Err(Because(ConditionNotMatched))
    else
      var reference := Reference(rule);
      var body := DraftBody(h.alertId(IdentityOf(reference, source)), reference, source, rule.severity,
                            title.Strip(), message.Strip(), createdAt,
                            Expiry(source, createdAt, rule.expiresAfterSeconds));
      var draft := Draft(body, h.draft(body));
      if title.Length() <= 140 && message.Length() <= 1000 && ValidDraft(h, draft) then Ok(draft) else Err(Invalid)
  }

  /** The earlier of two ends. */
  predicate EndsFirst(end: Instant, a: Instant, b: Instant) {
    end <= a && end <= b && (end == a || end == b)
  }

  /**
   * A draft is built exactly for an enabled rule and a live, consumable source with one of its trends, one of its
   * volatilities and enough confidence, at a time not before the evaluation of the source, with a title and a message
   * that fit; the record then never fails a check of its own, and a refusal names the first condition that is not met.
   */
  lemma DraftIsBuiltExactlyWhen(h: Digests, rule: Rule, source: Source, title: Padded, message: Padded, createdAt: Instant)
    requires ValidRule(rule) && ValidSource(source)
    ensures
      var wanted := rule.condition;
      var matched := source.trend in wanted.trends && source.volatility in wanted.volatilities
                     && wanted.minimumConfidence <= source.confidence;
      var fits := !title.Blank() && title.Length() <= 140 && !message.Blank() && message.Length() <= 1000;
      var usable := rule.enabled && source.consumable;
      match BuildDraft(h, rule, source, title, message, createdAt)
      case Err(Because(RuleDisabled)) => !rule.enabled
      case Err(Because(SourceNotConsumable)) => rule.enabled && !source.consumable
      case Err(Because(SourceExpired)) => usable && source.expiresAt <= createdAt
      case Err(Because(ConditionNotMatched)) => usable && createdAt < source.expiresAt && !matched
      case Err(Because(_)) => false
      case Err(Invalid) => usable && createdAt < source.expiresAt && matched && (createdAt < source.evaluatedAt || !fits)
      case Ok(d) =>
        && usable && matched && source.evaluatedAt <= createdAt < source.expiresAt && fits
        && d.body.createdAt == createdAt < d.body.expiresAt
        && EndsFirst(d.body.expiresAt, source.expiresAt, createdAt + rule.expiresAfterSeconds * 1_000_000)
        && d.body.source == source && d.body.severity == rule.severity
        && d.body.rule ==
           RuleReference(rule.ruleId, rule.version, true, rule.severity, rule.expiresAfterSeconds, rule.checksum)
        && d.body.alertId == h.alertId(Identity(rule.ruleId, rule.version, source.eventId))
        && d.body.title.core == title.core && d.body.message.core == message.core
  {
  }

  /** The validator accepts no other draft than the one that the builder makes of the same rule and source. */
  lemma ValidDraftIsTheBuiltOne(h: Digests, rule: Rule, source: Source, d: Draft)
    requires ValidRule(rule) && ValidSource(source) && d.body.rule == Reference(rule) && d.body.source == source
    requires source.trend in rule.condition.trends && source.volatility in rule.condition.volatilities
    requires rule.condition.minimumConfidence <= source.confidence
    ensures ValidDraft(h, d) <==> BuildDraft(h, rule, source, d.body.title, d.body.message, d.body.createdAt) == Ok(d)
  {
  }

  // ---- Evaluation records ----

  predicate ValidEvaluation(h: Digests, e: Evaluation) {
    var b := e.body;
    && Strict(b.reasons, ReasonRank)
    && b.evaluationId == h.evaluationId(IdentityOf(b.rule, b.source))
    && b.source.evaluatedAt == b.evaluatedAt
    && (if b.published then
          && b.reasons == []
          && b.alertId == Some(h.alertId(IdentityOf(b.rule, b.source))) && b.draftChecksum.Some?
          && b.rule.enabled && b.source.consumable && b.evaluatedAt < b.source.expiresAt
        else
          && b.reasons != [] && b.alertId.None? && b.draftChecksum.None?
          && (!b.rule.enabled ==> RuleDisabled in b.reasons)
          && (!b.source.consumable ==> SourceNotConsumable in b.reasons)
          && (b.source.expiresAt <= b.evaluatedAt ==> SourceExpired in b.reasons))
    && e.checksum == h.evaluation(b)
  }

  function CheckedEvaluation(h: Digests, b: EvaluationBody): Built<Evaluation> {
    var e := Evaluation(b, h.evaluation(b));
    if ValidEvaluation(h, e) then Ok(e) else Err(Invalid)
  }

  function Published(h: Digests, d: Draft): Built<Evaluation> {
    var b := d.body;
    if b.createdAt != b.source.evaluatedAt then Err(Invalid)
    else
      CheckedEvaluation(h, EvaluationBody(h.evaluationId(IdentityOf(b.rule, b.source)), b.rule, b.source, true, [],
                                          Some(b.alertId), Some(d.checksum), b.createdAt))
  }

  /** The reasons are sorted here, but repetitions survive the sort and the record then refuses them. */
  function Suppressed(h: Digests, rule: Rule, source: Source, reasons: seq<Reason>): Built<Evaluation> {
    var reference := Reference(rule);
    CheckedEvaluation(h, EvaluationBody(h.evaluationId(IdentityOf(reference, source)), reference, source, false,
                                        Sorted(reasons, ReasonRank), None, None, source.evaluatedAt))
  }
}
