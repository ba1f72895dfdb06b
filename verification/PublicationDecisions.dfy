/** The decision of the publication policy about an alert that could otherwise be published. */
module PublicationDecisions {
  import opened Prelude
  import opened CanonicalOrder
  import opened AlertContracts
  import opened AlertEvaluation

  datatype Body = Body(
    evaluationId: string,
    policyVersion: int,
    policyChecksum: string,
    allowed: bool,
    reasons: seq<Reason>,
    previousAlertId: Option<string>,
    blockedUntil: Option<Instant>,
    evaluatedAt: Instant)

  datatype Decision = Decision(body: Body, checksum: string)

  const POLICY_REASONS := {Duplicate, CooldownActive, DuringQuietHours, Snoozed, SourceExpired}

  predicate ValidDecision(digest: Body -> string, d: Decision) {
    && (forall r :: r in d.body.reasons ==> r in POLICY_REASONS)
    && Strict(d.body.reasons, ReasonRank)
    && d.body.allowed == (d.body.reasons == [])
    && (d.body.allowed ==> d.body.previousAlertId.None? && d.body.blockedUntil.None?)
    && d.checksum == digest(d.body)
  }

  function BuildDecision(digest: Body -> string, evaluationId: string, policyVersion: int, policyChecksum: string,
                         reasons: seq<Reason>, previousAlertId: Option<string>, blockedUntil: Option<Instant>,
                         evaluatedAt: Instant): (r: Built<Decision>)
    ensures r.Ok? ==> ValidDecision(digest, r.value)
    ensures r.Ok? <==>
      ConditionNotMatched !in reasons && RuleDisabled !in reasons && SourceNotConsumable !in reasons
    ensures r.Ok? ==>
      var b := r.value.body;
      && (forall x :: x in b.reasons <==> x in reasons) && (b.allowed <==> reasons == [])
      && b.previousAlertId == (if reasons == [] then None else previousAlertId)
      && b.blockedUntil == (if reasons == [] then None else blockedUntil)
      && b.evaluationId == evaluationId && b.policyVersion == policyVersion && b.policyChecksum == policyChecksum
      && b.evaluatedAt == evaluatedAt
  {
    var ordered := InOrder(set x | x in reasons);
    var allowed := ordered == [];
    var body := Body(evaluationId, policyVersion, policyChecksum, allowed, ordered,
                     if allowed then None else previousAlertId, if allowed then None else blockedUntil, evaluatedAt);
    assert forall x :: x in reasons <==> x in ordered;
    assert reasons == [] <==> ordered == [] by { SomeReason(reasons); InOrderHasNoRepetition(set x | x in reasons); }
    var decision := Decision(body, digest(body));
    if ValidDecision(digest, decision) then Ok(decision) else Err(Invalid)
  }

  /** The validator accepts no other decision than the one that the builder makes of the same fields. */
  lemma ValidDecisionIsTheBuiltOne(digest: Body -> string, d: Decision)
    ensures ValidDecision(digest, d) <==>
      BuildDecision(digest, d.body.evaluationId, d.body.policyVersion, d.body.policyChecksum, d.body.reasons,
                    d.body.previousAlertId, d.body.blockedUntil, d.body.evaluatedAt) == Ok(d)
  {
    if ValidDecision(digest, d) {
      StrictIsCanonical(InOrder(set x | x in d.body.reasons), d.body.reasons, ReasonRank);
    }
  }

  /** The validators leave one decision for a set of reasons: whatever accepted record agrees with it is equal to it. */
  lemma DecisionsAreCanonical(digest: Body -> string, a: Decision, b: Decision)
    requires ValidDecision(digest, a) && ValidDecision(digest, b)
    requires a.body == b.body.(reasons := a.body.reasons) && forall r :: r in a.body.reasons <==> r in b.body.reasons
    ensures a == b
  {
    StrictIsCanonical(a.body.reasons, b.body.reasons, ReasonRank);
  }

  /** Permuting or repeating the reasons changes neither the decision nor its checksum. */
  lemma OnlyTheSetOfReasonsMatters(digest: Body -> string, evaluationId: string, version: int, checksum: string,
                                   reasons: seq<Reason>, others: seq<Reason>, previous: Option<string>,
                                   blockedUntil: Option<Instant>, at: Instant)
    requires (forall r :: r in reasons ==> r in others) && (forall r :: r in others ==> r in reasons)
    ensures BuildDecision(digest, evaluationId, version, checksum, reasons, previous, blockedUntil, at) ==
            BuildDecision(digest, evaluationId, version, checksum, others, previous, blockedUntil, at)
  {
    assert (set r | r in reasons) == (set r | r in others);
  }

  /**
   * The evaluation run: evaluated once without the policy, and once more with the reasons of its decision when it
   * blocks.  No decision can make the second evaluation fail, and the run publishes exactly what the rule, the
   * source and the policy all let through.
   */
  method RunEvaluation(h: Digests, digest: Body -> string, rule: Rule, source: Source, decision: Decision)
    returns (r: Built<Outcome>)
    requires ValidRule(rule) && ValidSource(source) && ValidDecision(digest, decision)
    ensures r.Ok? && ResultAccepted(h, Intent(Reference(rule), source, source.evaluatedAt), r.value)
    ensures r.value.draft.Some? <==>
      rule.enabled && source.consumable && source.trend in rule.condition.trends
      && source.volatility in rule.condition.volatilities && rule.condition.minimumConfidence <= source.confidence
      && decision.body.reasons == []
    ensures var alone := Evaluated(h, rule, source, []);
      r.value == if alone.draft.Some? then Evaluated(h, rule, source, decision.body.reasons) else alone
    ensures Evaluated(h, rule, source, []).draft.Some? ==> r.value.evaluation.body.reasons == decision.body.reasons
  {
    PublishesExactlyWhen(h, rule, source, []);
    PublishesExactlyWhen(h, rule, source, decision.body.reasons);
    EvaluationPassesEveryValidator(h, rule, source, []);
    EvaluationPassesEveryValidator(h, rule, source, decision.body.reasons);
    StrictHasNoRepetition(decision.body.reasons);
    r := EvaluateAlert(h, rule, source, []);
    if r.value.draft.Some? && !decision.body.allowed {
      r := EvaluateAlert(h, rule, source, decision.body.reasons);
      ExpiredIsNotConsumable(source);
      StrictIsCanonical(r.value.evaluation.body.reasons, decision.body.reasons, ReasonRank);
    }
  }

  lemma StrictHasNoRepetition(reasons: seq<Reason>)
    requires Strict(reasons, ReasonRank)
    ensures NoRepetition(reasons)
  {
    assert forall i, k :: 0 <= i < k < |reasons| ==> ReasonRank(reasons[i]) < ReasonRank(reasons[k]);
  }
}
