/**
 * The evidence of phases two and three: an evaluator that collects failure reasons, and a validator, written
 * separately, of evidence without any.
 */
module PhaseEvidence {
  import opened Prelude

  datatype Source = LiveProbe | SyntheticBenchmark | ProductionTelemetry | Unavailable

  predicate Live(source: Source) {
    source.LiveProbe? || source.ProductionTelemetry?
  }

  /** The evidence of one scope of a capacity report. */
  datatype Evidence<N> = Evidence(source: Source, complete: bool, observedCount: int, metrics: map<N, real>,
                                  reference: Option<Padded>)

  /** What the report has already made sure of. */
  predicate ValidEvidence<N>(e: Evidence<N>) {
    && 0 <= e.observedCount
    && (e.source.Unavailable? ==> !e.complete && e.observedCount == 0 && e.metrics == map[])
    && (forall name :: name in e.metrics ==> 0.0 <= e.metrics[name])
    && (e.reference.Some? ==> 1 <= e.reference.value.Length() <= 200)
  }

  predicate NotNegative<N>(observations: map<N, real>) {
    forall name :: name in observations ==> 0.0 <= observations[name]
  }

  /** The first `n` of the named metrics, as far as they were measured. */
  function Observed<N(==)>(metrics: map<N, real>, names: seq<N>, n: nat): (o: map<N, real>)
    requires n <= |names|
    ensures forall name :: name in o ==> name in metrics && o[name] == metrics[name] && name in names
    ensures forall i :: 0 <= i < n && names[i] in metrics ==> names[i] in o
  {
    if n == 0 then map[]
    else
      var before := Observed(metrics, names, n - 1);
      if names[n - 1] in metrics then before[names[n - 1] := metrics[names[n - 1]]] else before
  }

  // ---- Phase two: the providers ----

  datatype Provider = Kraken | Binance

  datatype Measure = Samples | FailureFraction | Latency

  datatype Metric = Metric(provider: Provider, measure: Measure)

  const PROVIDERS := [Kraken, Binance]
  const MEASURES := [Samples, FailureFraction, Latency]
  const METRICS := [Metric(Kraken, Samples), Metric(Kraken, FailureFraction), Metric(Kraken, Latency),
                    Metric(Binance, Samples), Metric(Binance, FailureFraction), Metric(Binance, Latency)]

  datatype Budget = Budget(samples: real, failureFraction: real, latencySeconds: real)

  datatype ProviderReason = ScopeMissing | ScopeIncomplete | NotLive | MissingMetric(m: Metric) | OffBudget(m: Metric)

  predicate WithinBudget(m: Metric, value: real, budget: Budget) {
    match m.measure
    case Samples => budget.samples <= value
    case FailureFraction => value <= budget.failureFraction
    case Latency => value <= budget.latencySeconds * 1000.0
  }

  predicate Measured(metrics: map<Metric, real>, budgets: Provider -> Budget, m: Metric) {
    m in metrics && WithinBudget(m, metrics[m], budgets(m.provider))
  }

  function ScopeReasons(e: Option<Evidence<Metric>>): seq<ProviderReason> {
    if e.None? then [ScopeMissing]
    else if !e.value.complete then [ScopeIncomplete]
    else if !Live(e.value.source) then [NotLive]
    else []
  }

  function MetricsOf(e: Option<Evidence<Metric>>): map<Metric, real> {
    if e.None? then map[] else e.value.metrics
  }

  function MetricReason(metrics: map<Metric, real>, budgets: Provider -> Budget, m: Metric): (o: seq<ProviderReason>)
    ensures o == [] <==> Measured(metrics, budgets, m)
  {
    if m !in metrics then [MissingMetric(m)]
    else if !WithinBudget(m, metrics[m], budgets(m.provider)) then [OffBudget(m)]
    else []
  }

  function MetricReasons(metrics: map<Metric, real>, budgets: Provider -> Budget, n: nat, before: seq<ProviderReason>)
    : (o: seq<ProviderReason>)
    requires n <= |METRICS|
    ensures o == [] <==> before == [] && forall i :: 0 <= i < n ==> Measured(metrics, budgets, METRICS[i])
  {
    if n == 0 then before
    else MetricReasons(metrics, budgets, n - 1, before) + MetricReason(metrics, budgets, METRICS[n - 1])
  }

  function ProviderReasons(e: Option<Evidence<Metric>>, budgets: Provider -> Budget): seq<ProviderReason> {
    MetricReasons(MetricsOf(e), budgets, |METRICS|, ScopeReasons(e))
  }

  method EvaluateProviders(e: Option<Evidence<Metric>>, budgets: Provider -> Budget)
    returns (reasons: seq<ProviderReason>, observations: map<Metric, real>)
    ensures reasons == ProviderReasons(e, budgets)
    ensures observations == Observed(MetricsOf(e), METRICS, |METRICS|)
  {
    ghost var before := ScopeReasons(e);
    reasons, observations := ScopeReasons(e), map[];
    var metrics := MetricsOf(e);
    for i := 0 to |PROVIDERS|
      invariant reasons == MetricReasons(metrics, budgets, 3 * i, before)
      invariant observations == Observed(metrics, METRICS, 3 * i)
    {
      reasons, observations := EvaluateProvider(metrics, budgets, i, reasons, observations, before);
    }
  }

  /** The inner loop, over the measures of one provider. */
  method EvaluateProvider(metrics: map<Metric, real>, budgets: Provider -> Budget, i: nat,
                          reasons: seq<ProviderReason>, observations: map<Metric, real>, ghost before: seq<ProviderReason>)
    returns (reasons': seq<ProviderReason>, observations': map<Metric, real>)
    requires i < |PROVIDERS|
    requires reasons == MetricReasons(metrics, budgets, 3 * i, before) && observations == Observed(metrics, METRICS, 3 * i)
    ensures reasons' == MetricReasons(metrics, budgets, 3 * i + 3, before)
    ensures observations' == Observed(metrics, METRICS, 3 * i + 3)
  {
    reasons', observations' := reasons, observations;
    for k := 0 to |MEASURES|
      invariant reasons' == MetricReasons(metrics, budgets, 3 * i + k, before)
      invariant observations' == Observed(metrics, METRICS, 3 * i + k)
    {
      InOrder(i, k);
      reasons', observations' :=
        EvaluateMetric(metrics, budgets, Metric(PROVIDERS[i], MEASURES[k]), reasons', observations');
    }
  }

  method EvaluateMetric(metrics: map<Metric, real>, budgets: Provider -> Budget, m: Metric,
                        reasons: seq<ProviderReason>, observations: map<Metric, real>)
    returns (reasons': seq<ProviderReason>, observations': map<Metric, real>)
    ensures reasons' == reasons + MetricReason(metrics, budgets, m)
    ensures observations' == if m in metrics then observations[m := metrics[m]] else observations
  {
    reasons', observations' := reasons, observations;
    if m !in metrics {
      reasons' := reasons' + [MissingMetric(m)];
    } else {
      observations' := observations'[m := metrics[m]];
      if !WithinBudget(m, metrics[m], budgets(m.provider)) {
        reasons' := reasons' + [OffBudget(m)];
      }
    }
  }

  lemma InOrder(i: nat, k: nat)
    requires i < |PROVIDERS| && k < |MEASURES|
    ensures METRICS[3 * i + k] == Metric(PROVIDERS[i], MEASURES[k])
  {
  }

  lemma MetricIsListed(m: Metric) returns (i: nat)
    ensures i < |METRICS| && METRICS[i] == m
  {
    i := (if m.provider.Kraken? then 0 else 3) + (if m.measure.Samples? then 0 else if m.measure.FailureFraction? then 1 else 2);
  }

  /** The validator of passing evidence: exactly the frozen metrics, each within its budget. */
  predicate PassingProviders(observations: map<Metric, real>, budgets: Provider -> Budget) {
    && observations.Keys == (set m | m in METRICS)
    && forall provider: Provider :: ProviderPasses(observations, provider, budgets(provider))
  }

  predicate ProviderPasses(observations: map<Metric, real>, provider: Provider, budget: Budget)
    requires observations.Keys == (set m | m in METRICS)
  {
    MetricsAreThree(provider);
    && !(observations[Metric(provider, Samples)] < budget.samples)
    && !(budget.failureFraction < observations[Metric(provider, FailureFraction)])
    && !(budget.latencySeconds * 1000.0 < observations[Metric(provider, Latency)])
  }

  lemma MetricsAreThree(provider: Provider)
    ensures Metric(provider, Samples) in METRICS && Metric(provider, FailureFraction) in METRICS
            && Metric(provider, Latency) in METRICS
  {
    var i := MetricIsListed(Metric(provider, Samples));
    var k := MetricIsListed(Metric(provider, FailureFraction));
    var l := MetricIsListed(Metric(provider, Latency));
  }

  /** The evidence record can be built: the label of the report, the observations, and the passing evidence. */
  predicate ProviderRecord(environment: Padded, observations: map<Metric, real>, reasons: seq<ProviderReason>,
                           budgets: Provider -> Budget) {
    && !environment.Blank() && NotNegative(observations)
    && (reasons == [] ==> PassingProviders(observations, budgets))
  }

  lemma AllMeasured(metrics: map<Metric, real>, budgets: Provider -> Budget)
    ensures (forall m: Metric :: Measured(metrics, budgets, m)) <==>
            PassingProviders(Observed(metrics, METRICS, |METRICS|), budgets)
  {
    var o := Observed(metrics, METRICS, |METRICS|);
    if forall m: Metric :: Measured(metrics, budgets, m) {
      forall m: Metric
        ensures m in METRICS && m in o
      {
        assert Measured(metrics, budgets, m);
        var i := MetricIsListed(m);
      }
      forall provider: Provider
        ensures ProviderPasses(o, provider, budgets(provider))
      {
        assert Measured(metrics, budgets, Metric(provider, Samples));
        assert Measured(metrics, budgets, Metric(provider, FailureFraction));
        assert Measured(metrics, budgets, Metric(provider, Latency));
      }
    }
    if PassingProviders(o, budgets) {
      forall m: Metric
        ensures Measured(metrics, budgets, m)
      {
        var i := MetricIsListed(m);
        assert m in o;
        assert ProviderPasses(o, m.provider, budgets(m.provider));
      }
    }
  }

  /** Which reasons the evidence gives rise to. */
  predicate ProviderObjected(e: Option<Evidence<Metric>>, budgets: Provider -> Budget, x: ProviderReason) {
    match x
    case ScopeMissing => e.None?
    case ScopeIncomplete => e.Some? && !e.value.complete
    case NotLive => e.Some? && e.value.complete && (e.value.source.SyntheticBenchmark? || e.value.source.Unavailable?)
    case MissingMetric(m) => e.None? || m !in e.value.metrics
    case OffBudget(m) =>
      e.Some? && m in e.value.metrics
      && var value, budget := e.value.metrics[m], budgets(m.provider);
         match m.measure
         case Samples => value < budget.samples
         case FailureFraction => budget.failureFraction < value
         case Latency => budget.latencySeconds * 1000.0 < value
  }

  lemma {:induction false} MetricReasonsAre(metrics: map<Metric, real>, budgets: Provider -> Budget, n: nat,
                                            before: seq<ProviderReason>, x: ProviderReason)
    requires n <= |METRICS|
    ensures x in MetricReasons(metrics, budgets, n, before) <==>
      x in before || exists i :: 0 <= i < n && x in MetricReason(metrics, budgets, METRICS[i])
  {
    if n > 0 {
      MetricReasonsAre(metrics, budgets, n - 1, before, x);
    }
  }

  /** The reasons of the evaluator are exactly those. */
  lemma ProviderReasonIsGivenExactlyWhen(e: Option<Evidence<Metric>>, budgets: Provider -> Budget, x: ProviderReason)
    ensures x in ProviderReasons(e, budgets) <==> ProviderObjected(e, budgets, x)
  {
    MetricReasonsAre(MetricsOf(e), budgets, |METRICS|, ScopeReasons(e), x);
    if x.MissingMetric? || x.OffBudget? {
      var i := MetricIsListed(x.m);
      assert x in MetricReason(MetricsOf(e), budgets, METRICS[i]) <==> ProviderObjected(e, budgets, x);
    }
  }

  /**
   * The evaluator finds no reason exactly when the scope is complete and live and the validator accepts its
   * observations as passing; and the record, passing or failing, can be built exactly when the report has a label
   * that is not blank.
   */
  lemma ProviderEvidenceAgrees(e: Option<Evidence<Metric>>, budgets: Provider -> Budget, environment: Padded)
    requires e.Some? ==> ValidEvidence(e.value)
    ensures
      var observations := Observed(MetricsOf(e), METRICS, |METRICS|);
      var reasons := ProviderReasons(e, budgets);
      && (reasons == [] <==>
            && e.Some? && e.value.complete && (e.value.source.LiveProbe? || e.value.source.ProductionTelemetry?)
            && PassingProviders(observations, budgets))
      && (ProviderRecord(environment, observations, reasons, budgets) <==> !environment.Blank())
  {
    var metrics := MetricsOf(e);
    AllMeasured(metrics, budgets);
    if forall m: Metric :: Measured(metrics, budgets, m) {
      forall i | 0 <= i < |METRICS|
        ensures Measured(metrics, budgets, METRICS[i])
      {
      }
    } else {
      var m: Metric :| !Measured(metrics, budgets, m);
      var i := MetricIsListed(m);
    }
  }

  /** Reasons cannot be dropped: a passing record of complete, live evidence is accepted exactly if there are none. */
  lemma ProviderReasonsCannotBeDropped(e: Evidence<Metric>, budgets: Provider -> Budget, environment: Padded)
    requires ValidEvidence(e) && e.complete && (e.source.LiveProbe? || e.source.ProductionTelemetry?)
    ensures ProviderRecord(environment, Observed(e.metrics, METRICS, |METRICS|), [], budgets) <==>
            !environment.Blank() && ProviderReasons(Some(e), budgets) == []
  {
    ProviderEvidenceAgrees(Some(e), budgets, environment);
  }

  // ---- Phase three: the background jobs ----

  datatype JobMetric =
    | QueueWait
    | ContextSamples
    | SuccessFraction
    | FailureCount
    | RuntimeP95
    | RuntimeTarget
    | RuntimeWithinTarget
    | FixtureWindows
    | FixtureFeatures

  /** In the order in which the names sort. */
  const JOB_METRICS := [FailureCount, FixtureFeatures, FixtureWindows, RuntimeP95, RuntimeTarget, RuntimeWithinTarget,
                        ContextSamples, SuccessFraction, QueueWait]

  const MINIMUM_OBSERVATIONS := 410

  /** The two texts that the evaluator compares a reference with, or puts in its place. */
  datatype Texts = Texts(fixture: Padded, missing: Padded)

  predicate ValidTexts(t: Texts) {
    && t.fixture.Trimmed() && 1 <= t.fixture.Length() <= 100
    && t.missing.Trimmed() && 1 <= t.missing.Length() <= 100 && t.missing != t.fixture
  }

  datatype Targets = Targets(runtimeSeconds: real, queueWaitSeconds: real)

  datatype JobReason =
    | NoScope
    | NotComplete
    | NotSynthetic
    | OtherFixture
    | NoMetric(m: JobMetric)
    | TooFewObservations
    | Unmet(m: JobMetric)

  /** The observation, or a default that fails its check: none where the default is infinite. */
  predicate AtMost(o: map<JobMetric, real>, m: JobMetric, bound: real) {
    m in o && o[m] <= bound
  }

  function Get(o: map<JobMetric, real>, m: JobMetric, default: real): real {
    if m in o then o[m] else default
  }

  function Checks(o: map<JobMetric, real>, count: int, t: Targets): seq<(bool, JobReason)> {
    [(MINIMUM_OBSERVATIONS <= count, TooFewObservations),
     (AtMost(o, QueueWait, t.queueWaitSeconds * 1000.0), Unmet(QueueWait)),
     (20.0 <= Get(o, ContextSamples, 0.0), Unmet(ContextSamples)),
     (Get(o, SuccessFraction, 0.0) == 1.0, Unmet(SuccessFraction)),
     (Get(o, FailureCount, 1.0) == 0.0, Unmet(FailureCount)),
     (Get(o, RuntimeTarget, 0.0) == t.runtimeSeconds, Unmet(RuntimeTarget)),
     (AtMost(o, RuntimeP95, t.runtimeSeconds), Unmet(RuntimeP95)),
     (Get(o, RuntimeWithinTarget, 0.0) == 1.0, Unmet(RuntimeWithinTarget)),
     (Get(o, FixtureWindows, 0.0) == 56.0, Unmet(FixtureWindows)),
     (Get(o, FixtureFeatures, 0.0) == 5.0, Unmet(FixtureFeatures))]
  }

  function Failed(checks: seq<(bool, JobReason)>, n: nat, before: seq<JobReason>): (o: seq<JobReason>)
    requires n <= |checks|
    ensures o == [] <==> before == [] && forall i :: 0 <= i < n ==> checks[i].0
  {
    if n == 0 then before else Failed(checks, n - 1, before) + if checks[n - 1].0 then [] else [checks[n - 1].1]
  }

  function Unmeasured(metrics: map<JobMetric, real>, n: nat, before: seq<JobReason>): (o: seq<JobReason>)
    requires n <= |JOB_METRICS|
    ensures o == [] <==> before == [] && forall i :: 0 <= i < n ==> JOB_METRICS[i] in metrics
  {
    if n == 0 then before
    else Unmeasured(metrics, n - 1, before) + if JOB_METRICS[n - 1] in metrics then [] else [NoMetric(JOB_METRICS[n - 1])]
  }

  function ReferenceOf(e: Option<Evidence<JobMetric>>, t: Texts): Padded {
    if e.None? || e.value.reference.None? then t.missing else e.value.reference.value
  }

  function SettingReasons(e: Evidence<JobMetric>, reference: Padded, t: Texts): (o: seq<JobReason>)
    ensures o == [] <==> e.complete && e.source.SyntheticBenchmark? && reference == t.fixture
  {
    var incomplete := if e.complete then [] else [NotComplete];
    var unsuited := if e.source.SyntheticBenchmark? then incomplete else incomplete + [NotSynthetic];
    if reference == t.fixture then unsuited else unsuited + [OtherFixture]
  }

  function JobReasons(e: Option<Evidence<JobMetric>>, texts: Texts, t: Targets): seq<JobReason> {
    if e.None? then [NoScope]
    else
      var observations := Observed(e.value.metrics, JOB_METRICS, |JOB_METRICS|);
      var found := Unmeasured(e.value.metrics, |JOB_METRICS|, SettingReasons(e.value, ReferenceOf(e, texts), texts));
      Failed(Checks(observations, e.value.observedCount, t), 10, found)
  }

  function JobObservations(e: Option<Evidence<JobMetric>>): map<JobMetric, real> {
    if e.None? then map[] else Observed(e.value.metrics, JOB_METRICS, |JOB_METRICS|)
  }

  method EvaluateJobs(e: Option<Evidence<JobMetric>>, texts: Texts, t: Targets)
    returns (reasons: seq<JobReason>, observations: map<JobMetric, real>, reference: Padded, count: int)
    ensures reasons == JobReasons(e, texts, t) && observations == JobObservations(e)
    ensures reference == ReferenceOf(e, texts) && count == if e.None? then 0 else e.value.observedCount
  {
    reasons, observations, reference, count := [], map[], texts.missing, 0;
    if e.None? {
      return [NoScope], observations, reference, count;
    }
    var evidence := e.value;
    if evidence.reference.Some? { reference := evidence.reference.value; }
    count := evidence.observedCount;
    if !evidence.complete { reasons := reasons + [NotComplete]; }
    if !evidence.source.SyntheticBenchmark? { reasons := reasons + [NotSynthetic]; }
    if reference != texts.fixture { reasons := reasons + [OtherFixture]; }
    ghost var before := reasons;
    assert before == SettingReasons(evidence, reference, texts);
    for i := 0 to |JOB_METRICS|
      invariant reasons == Unmeasured(evidence.metrics, i, before)
      invariant observations == Observed(evidence.metrics, JOB_METRICS, i)
    {
      var m := JOB_METRICS[i];
      if m !in evidence.metrics {
        reasons := reasons + [NoMetric(m)];
      } else {
        observations := observations[m := evidence.metrics[m]];
      }
    }
    assert observations == JobObservations(e);
    reasons := Extend(reasons, Checks(observations, count, t));
  }

  method Extend(reasons: seq<JobReason>, checks: seq<(bool, JobReason)>) returns (more: seq<JobReason>)
    ensures more == Failed(checks, |checks|, reasons)
  {
    more := reasons;
    for i := 0 to |checks|
      invariant more == Failed(checks, i, reasons)
    {
      if !checks[i].0 { more := more + [checks[i].1]; }
    }
  }

  /** The validator of passing evidence. */
  predicate PassingJobs(reference: Padded, count: int, o: map<JobMetric, real>, texts: Texts, t: Targets) {
    reference.Strip() == texts.fixture && PassingObservations(count, o, t)
  }

  predicate PassingObservations(count: int, o: map<JobMetric, real>, t: Targets) {
    && MINIMUM_OBSERVATIONS <= count
    && o.Keys == (set m | m in JOB_METRICS)
    && AllJobMetrics(o)
    && o[QueueWait] <= t.queueWaitSeconds * 1000.0
    && !(o[ContextSamples] < 20.0)
    && o[SuccessFraction] == 1.0
    && o[FailureCount] == 0.0
    && !(o[RuntimeTarget] != t.runtimeSeconds || t.runtimeSeconds < o[RuntimeP95] || o[RuntimeWithinTarget] != 1.0)
    && !(o[FixtureWindows] != 56.0 || o[FixtureFeatures] != 5.0)
  }

  /** The nine names, one by one. */
  predicate AllJobMetrics(o: map<JobMetric, real>) {
    && FailureCount in o && FixtureFeatures in o && FixtureWindows in o && RuntimeP95 in o && RuntimeTarget in o
    && RuntimeWithinTarget in o && ContextSamples in o && SuccessFraction in o && QueueWait in o
  }

  /** The record also bounds the reference, which a report may make longer, and insists that it is not blank. */
  predicate JobRecord(environment: Padded, reference: Padded, count: int, o: map<JobMetric, real>, reasons: seq<JobReason>,
                      texts: Texts, t: Targets) {
    && !environment.Blank() && 0 <= count && NotNegative(o)
    && !reference.Blank() && reference.Length() <= 100
    && (reasons == [] ==> PassingJobs(reference, count, o, texts, t))
  }

  lemma JobMetricsListed(o: map<JobMetric, real>)
    ensures AllJobMetrics(o) <==> forall i :: 0 <= i < |JOB_METRICS| ==> JOB_METRICS[i] in o
    ensures (forall m :: m in o ==> m in JOB_METRICS) && AllJobMetrics(o) ==> o.Keys == (set m | m in JOB_METRICS)
  {
    assert JOB_METRICS[0] == FailureCount && JOB_METRICS[1] == FixtureFeatures && JOB_METRICS[2] == FixtureWindows
           && JOB_METRICS[3] == RuntimeP95 && JOB_METRICS[4] == RuntimeTarget && JOB_METRICS[5] == RuntimeWithinTarget
           && JOB_METRICS[6] == ContextSamples && JOB_METRICS[7] == SuccessFraction && JOB_METRICS[8] == QueueWait;
  }

  lemma ChecksHold(o: map<JobMetric, real>, count: int, t: Targets)
    requires AllJobMetrics(o)
    ensures (forall i :: 0 <= i < 10 ==> Checks(o, count, t)[i].0) <==>
      && MINIMUM_OBSERVATIONS <= count
      && o[QueueWait] <= t.queueWaitSeconds * 1000.0
      && !(o[ContextSamples] < 20.0)
      && o[SuccessFraction] == 1.0
      && o[FailureCount] == 0.0
      && !(o[RuntimeTarget] != t.runtimeSeconds || t.runtimeSeconds < o[RuntimeP95] || o[RuntimeWithinTarget] != 1.0)
      && !(o[FixtureWindows] != 56.0 || o[FixtureFeatures] != 5.0)
  {
    var c := Checks(o, count, t);
    assert (forall i :: 0 <= i < 10 ==> c[i].0) <==>
           c[0].0 && c[1].0 && c[2].0 && c[3].0 && c[4].0 && c[5].0 && c[6].0 && c[7].0 && c[8].0 && c[9].0;
  }

  lemma TrimmedReference(reference: Padded, texts: Texts)
    requires ValidTexts(texts)
    ensures reference == texts.fixture <==> reference.Trimmed() && reference.Strip() == texts.fixture
  {
  }

  /** Every metric observed and every check passed, as the evaluator and as the validator put it. */
  lemma ObservationsAgree(metrics: map<JobMetric, real>, count: int, t: Targets)
    ensures
      var o := Observed(metrics, JOB_METRICS, |JOB_METRICS|);
      (forall i :: 0 <= i < |JOB_METRICS| ==> JOB_METRICS[i] in metrics) && (forall i :: 0 <= i < 10 ==> Checks(o, count, t)[i].0)
      <==> PassingObservations(count, o, t)
  {
    var o := Observed(metrics, JOB_METRICS, |JOB_METRICS|);
    JobMetricsListed(metrics);
    JobMetricsListed(o);
    assert AllJobMetrics(o) <==> AllJobMetrics(metrics);
    if AllJobMetrics(o) {
      ChecksHold(o, count, t);
    }
  }

  /** The metric was measured and meets its demand; a target that is missing counts as one of zero. */
  predicate MeetsDemand(metrics: map<JobMetric, real>, m: JobMetric, t: Targets) {
    if m !in metrics then m.RuntimeTarget? && t.runtimeSeconds == 0.0
    else match m
      case QueueWait => metrics[m] <= t.queueWaitSeconds * 1000.0
      case ContextSamples => 20.0 <= metrics[m]
      case SuccessFraction => metrics[m] == 1.0
      case FailureCount => metrics[m] == 0.0
      case RuntimeTarget => metrics[m] == t.runtimeSeconds
      case RuntimeP95 => metrics[m] <= t.runtimeSeconds
      case RuntimeWithinTarget => metrics[m] == 1.0
      case FixtureWindows => metrics[m] == 56.0
      case FixtureFeatures => metrics[m] == 5.0
  }

  /** Which reasons the evidence gives rise to; a metric that was not measured misses its demand too. */
  predicate JobObjected(e: Option<Evidence<JobMetric>>, texts: Texts, t: Targets, x: JobReason) {
    if e.None? then x.NoScope?
    else match x
      case NoScope => false
      case NotComplete => !e.value.complete
      case NotSynthetic => e.value.source != SyntheticBenchmark
      case OtherFixture => e.value.reference != Some(texts.fixture)
      case NoMetric(m) => m !in e.value.metrics
      case TooFewObservations => e.value.observedCount < 410
      case Unmet(m) => !MeetsDemand(e.value.metrics, m, t)
  }

  lemma {:induction false} UnmeasuredAre(metrics: map<JobMetric, real>, n: nat, before: seq<JobReason>, x: JobReason)
    requires n <= |JOB_METRICS|
    ensures x in Unmeasured(metrics, n, before) <==>
      x in before || (x.NoMetric? && x.m !in metrics && exists i :: 0 <= i < n && JOB_METRICS[i] == x.m)
  {
    if n > 0 {
      UnmeasuredAre(metrics, n - 1, before, x);
    }
  }

  predicate FailsFor(checks: seq<(bool, JobReason)>, n: nat, x: JobReason)
    requires n <= |checks|
  {
    exists i :: 0 <= i < n && checks[i].1 == x && !checks[i].0
  }

  lemma {:induction false} FailedAre(checks: seq<(bool, JobReason)>, n: nat, before: seq<JobReason>, x: JobReason)
    requires n <= |checks|
    ensures x in Failed(checks, n, before) <==>
      x in before || FailsFor(checks, n, x)
  {
    if n > 0 {
      FailedAre(checks, n - 1, before, x);
    }
  }

  lemma JobMetricIsListed(m: JobMetric) returns (i: nat)
    ensures i < |JOB_METRICS| && JOB_METRICS[i] == m
  {
    i := match m
      case FailureCount => 0
      case FixtureFeatures => 1
      case FixtureWindows => 2
      case RuntimeP95 => 3
      case RuntimeTarget => 4
      case RuntimeWithinTarget => 5
      case ContextSamples => 6
      case SuccessFraction => 7
      case QueueWait => 8;
  }

  /** The place of the check that a reason belongs to. */
  function CheckOf(x: JobReason): nat
    requires x.TooFewObservations? || x.Unmet?
  {
    match x
    case TooFewObservations => 0
    case Unmet(m) =>
      match m
      case QueueWait => 1
      case ContextSamples => 2
      case SuccessFraction => 3
      case FailureCount => 4
      case RuntimeTarget => 5
      case RuntimeP95 => 6
      case RuntimeWithinTarget => 7
      case FixtureWindows => 8
      case FixtureFeatures => 9
  }

  lemma ChecksAreNamed(o: map<JobMetric, real>, count: int, t: Targets, i: nat)
    requires i < 10
    ensures var x := Checks(o, count, t)[i].1; (x.TooFewObservations? || x.Unmet?) && CheckOf(x) == i
  {
  }

  lemma CheckNames(o: map<JobMetric, real>, count: int, t: Targets, x: JobReason)
    requires x.TooFewObservations? || x.Unmet?
    ensures Checks(o, count, t)[CheckOf(x)].1 == x
  {
  }

  lemma CheckMeetsDemand(metrics: map<JobMetric, real>, count: int, t: Targets, x: JobReason)
    requires x.TooFewObservations? || x.Unmet?
    ensures Checks(Observed(metrics, JOB_METRICS, |JOB_METRICS|), count, t)[CheckOf(x)].0 <==>
            if x.Unmet? then MeetsDemand(metrics, x.m, t) else 410 <= count
  {
    if x.Unmet? {
      var i := JobMetricIsListed(x.m);
      var o := Observed(metrics, JOB_METRICS, |JOB_METRICS|);
      assert x.m in o <==> x.m in metrics;
    }
  }

  lemma SettingReasonsAre(e: Evidence<JobMetric>, reference: Padded, t: Texts, x: JobReason)
    ensures x in SettingReasons(e, reference, t) <==>
      match x
      case NotComplete => !e.complete
      case NotSynthetic => e.source != SyntheticBenchmark
      case OtherFixture => reference != t.fixture
      case _ => false
  {
  }

  lemma FailedChecksAre(metrics: map<JobMetric, real>, count: int, t: Targets, x: JobReason)
    ensures FailsFor(Checks(Observed(metrics, JOB_METRICS, |JOB_METRICS|), count, t), 10, x) <==>
            if x.Unmet? then !MeetsDemand(metrics, x.m, t) else x.TooFewObservations? && count < 410
  {
    var o := Observed(metrics, JOB_METRICS, |JOB_METRICS|);
    forall i | 0 <= i < 10
      ensures var y := Checks(o, count, t)[i].1; (y.TooFewObservations? || y.Unmet?) && CheckOf(y) == i
    {
      ChecksAreNamed(o, count, t, i);
    }
    if x.TooFewObservations? || x.Unmet? {
      CheckNames(o, count, t, x);
      CheckMeetsDemand(metrics, count, t, x);
    }
  }

  /** The reasons of the evaluator are exactly those. */
  lemma JobReasonIsGivenExactlyWhen(e: Option<Evidence<JobMetric>>, texts: Texts, t: Targets, x: JobReason)
    requires ValidTexts(texts)
    ensures x in JobReasons(e, texts, t) <==> JobObjected(e, texts, t, x)
  {
    if e.Some? {
      var metrics, count := e.value.metrics, e.value.observedCount;
      var before := SettingReasons(e.value, ReferenceOf(e, texts), texts);
      var c := Checks(Observed(metrics, JOB_METRICS, |JOB_METRICS|), count, t);
      FailedAre(c, 10, Unmeasured(metrics, |JOB_METRICS|, before), x);
      UnmeasuredAre(metrics, |JOB_METRICS|, before, x);
      SettingReasonsAre(e.value, ReferenceOf(e, texts), texts, x);
      FailedChecksAre(metrics, count, t, x);
      if x.NoMetric? {
        var i := JobMetricIsListed(x.m);
      }
    }
  }

  /** No reason exactly for a complete synthetic benchmark of the fixture that the validator accepts as passing. */
  lemma JobEvidenceAgrees(e: Option<Evidence<JobMetric>>, texts: Texts, t: Targets)
    requires ValidTexts(texts) && (e.Some? ==> ValidEvidence(e.value))
    ensures JobReasons(e, texts, t) == [] <==>
      && e.Some? && e.value.complete && e.value.source.SyntheticBenchmark? && ReferenceOf(e, texts).Trimmed()
      && PassingJobs(ReferenceOf(e, texts), e.value.observedCount, JobObservations(e), texts, t)
  {
    if e.Some? {
      TrimmedReference(ReferenceOf(e, texts), texts);
      ObservationsAgree(e.value.metrics, e.value.observedCount, t);
    }
  }

  /**
   * Failing evidence, on the other hand, cannot always be recorded: a reference of more than a hundred characters,
   * or a blank one, is admitted by the report and refused by the record.
   */
  lemma JobEvidenceIsRecordedExactlyWhen(e: Option<Evidence<JobMetric>>, texts: Texts, t: Targets, environment: Padded)
    requires ValidTexts(texts) && (e.Some? ==> ValidEvidence(e.value))
    ensures
      var reference := ReferenceOf(e, texts);
      JobRecord(environment, reference, if e.None? then 0 else e.value.observedCount, JobObservations(e),
                JobReasons(e, texts, t), texts, t)
      <==> !environment.Blank() && !reference.Blank() && reference.Length() <= 100
  {
    JobEvidenceAgrees(e, texts, t);
  }

  /** A reference that only becomes the fixture once it is trimmed fails the evaluator and satisfies the validator. */
  lemma UntrimmedReferenceSplitsThem(e: Evidence<JobMetric>, texts: Texts, t: Targets)
    requires ValidTexts(texts) && ValidEvidence(e) && e.reference.Some? && !e.reference.value.Trimmed()
    requires PassingJobs(e.reference.value, e.observedCount, JobObservations(Some(e)), texts, t)
    ensures JobReasons(Some(e), texts, t) != []
  {
    JobEvidenceAgrees(Some(e), texts, t);
  }

  /** The validator looks at the reference without the white space around it. */
  lemma OuterSpaceIsIgnored(reference: Padded, count: int, o: map<JobMetric, real>, texts: Texts, t: Targets)
    ensures PassingJobs(reference, count, o, texts, t) <==> PassingJobs(reference.Strip(), count, o, texts, t)
  {
  }

  /** Reasons cannot be dropped here either, as long as evidence is complete, synthetic and of a trimmed reference. */
  lemma JobReasonsCannotBeDropped(e: Evidence<JobMetric>, texts: Texts, t: Targets, environment: Padded)
    requires ValidTexts(texts) && ValidEvidence(e) && e.complete && e.source.SyntheticBenchmark?
    requires ReferenceOf(Some(e), texts).Trimmed()
    ensures JobRecord(environment, ReferenceOf(Some(e), texts), e.observedCount, JobObservations(Some(e)), [], texts, t)
            <==> !environment.Blank() && JobReasons(Some(e), texts, t) == []
  {
    JobEvidenceAgrees(Some(e), texts, t);
  }
}
