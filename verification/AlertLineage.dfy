/** The offline simulation of a published alert, and the chain of times from the source to its outcome. */
module AlertLineage {
  import opened Prelude
  import opened MarketContext
  import opened AlertContracts
  import opened AlertEvaluation
  import Outcomes = AlertOutcomes

  const MIN_HORIZON := 900
  const MAX_HORIZON := 2_592_000

  datatype Simulation = Simulation(
    alertId: string,
    expected: Trend,
    horizonSeconds: int,
    startedAt: Instant,
    endsAt: Instant,
    startedBy: Padded)

  datatype Objection = BeforePublication | AlertExpired | NoActor | FieldRefused

  datatype Enrollment = Started(simulation: Simulation) | Refused(objection: Objection)

  predicate ValidSimulation(s: Simulation) {
    && MIN_HORIZON <= s.horizonSeconds <= MAX_HORIZON
    && s.endsAt == s.startedAt + s.horizonSeconds * SECOND
    && s.startedBy.Trimmed() && 1 <= s.startedBy.Length() <= 100
  }

  function Simulate(alert: Draft, horizonSeconds: int, startedAt: Instant, actor: Padded): (r: Enrollment)
    ensures r.Started? ==> ValidSimulation(r.simulation)
  {
    if startedAt < alert.body.createdAt then Refused(BeforePublication)
    else if alert.body.expiresAt <= startedAt then Refused(AlertExpired)
    else if actor.Blank() then Refused(NoActor)
    else
      var s := Simulation(alert.body.alertId, alert.body.source.trend, horizonSeconds, startedAt,
                          startedAt + horizonSeconds * SECOND, actor.Strip());
      if actor.Length() <= 100 && ValidSimulation(s) then Started(s) else Refused(FieldRefused)
  }

  function WatchOf(s: Simulation): Outcomes.Watch {
    Outcomes.Watch(s.expected, s.startedAt, s.endsAt)
  }

  /** The countdown of the view, in whole seconds. */
  function SecondsRemaining(s: Simulation, at: Instant): int {
    Max(0, WholeSeconds(s.endsAt - at))
  }

  predicate AwaitingOutcome(s: Simulation, at: Instant) {
    !(0 < SecondsRemaining(s, at))
  }

  // ---- Results ----

  /** Every alert that is evaluated, simulated and judged carries its times in one chain. */
  lemma TimesChain(h: Digests, rule: Rule, source: Source, publication: seq<Reason>, horizonSeconds: int,
                   startedAt: Instant, actor: Padded, prices: Outcomes.Prices, observed: Trend,
                   observedAt: Instant, recordedAt: Instant, recorder: Padded)
    requires ValidRule(rule) && ValidSource(source) && Evaluated(h, rule, source, publication).draft.Some?
    requires Simulate(Evaluated(h, rule, source, publication).draft.value, horizonSeconds, startedAt, actor).Started?
    requires
      var s := Simulate(Evaluated(h, rule, source, publication).draft.value, horizonSeconds, startedAt, actor).simulation;
      Outcomes.Build(WatchOf(s), prices, observed, observedAt, recordedAt, recorder).Ok?
    ensures
      var draft := Evaluated(h, rule, source, publication).draft.value.body;
      var s := Simulate(Evaluated(h, rule, source, publication).draft.value, horizonSeconds, startedAt, actor).simulation;
      var o := Outcomes.Build(WatchOf(s), prices, observed, observedAt, recordedAt, recorder).outcome;
      && source.evaluatedAt == draft.createdAt <= s.startedAt < draft.expiresAt <= source.expiresAt
      && draft.expiresAt <= draft.createdAt + 86_400 * SECOND
      && s.startedAt + MIN_HORIZON * SECOND <= s.endsAt <= o.observedAt <= o.recordedAt
      && !o.expected.Undetermined? && (o.expected.Ranging? ==> !o.classification.Neutral?)
      && (o.expected == source.trend)
  {
    EvaluationPassesEveryValidator(h, rule, source, publication);
    PublishedTrendIsDetermined(h, rule, source, publication);
  }

  /** Which enrolments start, for any alert; every refusal names the first condition that is not met. */
  lemma SimulationStartsExactlyWhen(alert: Draft, horizonSeconds: int, startedAt: Instant, actor: Padded)
    ensures
      var horizon := 900 <= horizonSeconds <= 2_592_000;
      var alive := alert.body.createdAt <= startedAt < alert.body.expiresAt;
      match Simulate(alert, horizonSeconds, startedAt, actor)
      case Started(s) =>
        && alive && horizon && actor.core != "" && actor.Length() <= 100
        && s.startedAt == startedAt && s.endsAt - startedAt == horizonSeconds * 1_000_000
        && s.alertId == alert.body.alertId && s.expected == alert.body.source.trend && s.startedBy.core == actor.core
      case Refused(BeforePublication) => startedAt < alert.body.createdAt
      case Refused(AlertExpired) => alert.body.createdAt <= startedAt && alert.body.expiresAt <= startedAt
      case Refused(NoActor) => alive && actor.core == ""
      case Refused(FieldRefused) => alive && actor.core != "" && (!horizon || 100 < actor.Length())
  {
  }

  /** The validator accepts no other simulation of a living alert than the one that is started. */
  lemma ValidSimulationIsTheStartedOne(alert: Draft, s: Simulation)
    requires s.alertId == alert.body.alertId && s.expected == alert.body.source.trend
    requires alert.body.createdAt <= s.startedAt < alert.body.expiresAt
    ensures ValidSimulation(s) <==> Simulate(alert, s.horizonSeconds, s.startedAt, s.startedBy) == Started(s)
  {
  }

  /** An alert that is published can be simulated from the moment it is published, for any admissible horizon. */
  lemma PublishedAlertCanBeSimulated(h: Digests, rule: Rule, source: Source, publication: seq<Reason>,
                                     horizonSeconds: int, startedAt: Instant, actor: Padded)
    requires ValidRule(rule) && ValidSource(source) && Evaluated(h, rule, source, publication).draft.Some?
    requires !actor.Blank() && actor.Length() <= 100
    ensures
      var alert := Evaluated(h, rule, source, publication).draft.value;
      Simulate(alert, horizonSeconds, startedAt, actor).Started? <==>
        && source.evaluatedAt <= startedAt < alert.body.expiresAt
        && 900 <= horizonSeconds <= 2_592_000
  {
    EvaluationPassesEveryValidator(h, rule, source, publication);
  }

  /**
   * The view counts whole seconds, so it asks for the outcome during the last second before the horizon; an outcome
   * observed in that second is still refused.
   */
  lemma OutcomeIsAwaitedASecondEarly(s: Simulation, at: Instant, prices: Outcomes.Prices, observed: Trend,
                                     recordedAt: Instant, recorder: Padded)
    ensures AwaitingOutcome(s, at) <==> s.endsAt - SECOND < at
    ensures AwaitingOutcome(s, at) && at < s.endsAt ==>
            Outcomes.Build(WatchOf(s), prices, observed, at, recordedAt, recorder) == Outcomes.Err(Outcomes.ObservedTooEarly)
  {
  }
}
