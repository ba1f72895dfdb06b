/** The phase-zero gates: measured capacity and provider evidence against fixed budgets, failing closed. */
module CapacityGates {
  import opened Prelude
  import opened BackgroundJobs
  import opened CanonicalOrder

  datatype Scope = Providers | EventProcessing | Database | Jobs | Storage

  const SCOPES := [Providers, EventProcessing, Database, Jobs, Storage]

  const KINDS := [ExperimentExecution, WalkForwardExecution, MarketDataImport, MarketDataPoll, MarketDataReplay,
                  MarketContextEvaluation, AlertEvaluation, DecisionEvaluation, DatasetFileImport, OptimizationExecution]

  datatype Name =
    | Samples(provider: Padded)
    | FailureFraction(provider: Padded)
    | HttpLatency(provider: Padded)
    | ContractLatency
    | ContractThroughput
    | InboxLookup
    | CurrentWindow
    | TimeRange
    | PoolUtilization
    | QueueWait
    | Runtime(kind: Kind)
    | EventCount
    | EventBytes
    | ProjectedEvents
    | ProjectedStorage
  {
    /** The one scope in which the gates look for the metric. */
    function Scope(): Scope {
      match this
      case Samples(_) => Providers
      case FailureFraction(_) => Providers
      case HttpLatency(_) => Providers
      case ContractLatency => EventProcessing
      case ContractThroughput => EventProcessing
      case InboxLookup => Database
      case CurrentWindow => Database
      case TimeRange => Database
      case PoolUtilization => Database
      case EventCount => Database
      case QueueWait => Jobs
      case Runtime(_) => Jobs
      case EventBytes => Storage
      case ProjectedEvents => Storage
      case ProjectedStorage => Storage
    }

    predicate MoreIsBetter() {
      Samples? || ContractThroughput? || EventCount?
    }
  }

  /** The scopes with any evidence, those measured completely, and the metrics of all of them. */
  datatype Report = Report(present: set<Scope>, complete: set<Scope>, metrics: map<Name, real>)

  predicate ValidReport(r: Report) {
    && r.complete <= r.present
    && (forall name :: name in r.metrics ==> name.Scope() in r.present && 0.0 <= r.metrics[name])
  }

  datatype Budget = Budget(
    latencyMs: real, throughput: real, queryMs: real, poolFraction: real, queueWaitSeconds: real,
    runtimeSeconds: Kind -> real, storageBytes: real)

  datatype ProviderBudget = ProviderBudget(samples: real, failureFraction: real, latencySeconds: real)

  datatype Reason =
    | MissingScope(scope: Scope)
    | NoEvidence(name: Name)
    | NoMetric(name: Name)
    | OffTarget(name: Name)
    | CountNotPositive
    | DuplicateProviders
    | ProviderIncomplete
    | NoBudget(provider: Padded)

  // ---- One metric ----

  function Missing(r: Report, name: Name): (m: seq<Reason>)
    requires ValidReport(r)
    ensures m == [] <==> name in r.metrics
  {
    if name.Scope() !in r.present then [NoEvidence(name)] else if name !in r.metrics then [NoMetric(name)] else []
  }

  method Metric(r: Report, name: Name, reasons: seq<Reason>) returns (value: Option<real>, more: seq<Reason>)
    requires ValidReport(r)
    ensures more == reasons + Missing(r, name)
    ensures value == if name in r.metrics then Some(r.metrics[name]) else None
  {
    value, more := None, reasons;
    if name.Scope() !in r.present {
      more := more + [NoEvidence(name)];
    } else if name !in r.metrics {
      more := more + [NoMetric(name)];
    } else {
      value := Some(r.metrics[name]);
    }
  }

  /** A bound from above, or from below where more is better. */
  datatype Check = Check(name: Name, bound: real)
  {
    predicate Kept(value: real) {
      if name.MoreIsBetter() then bound <= value else value <= bound
    }
  }

  predicate Holds(r: Report, c: Check) {
    c.name in r.metrics && c.Kept(r.metrics[c.name])
  }

  function Violation(r: Report, c: Check): seq<Reason> {
    if c.name in r.metrics && !c.Kept(r.metrics[c.name]) then [OffTarget(c.name)] else []
  }

  method Judge(value: Option<real>, c: Check, reasons: seq<Reason>) returns (more: seq<Reason>)
    ensures more == reasons + if value.Some? && !c.Kept(value.value) then [OffTarget(c.name)] else []
  {
    more := reasons;
    if value.Some? && !c.Kept(value.value) {
      more := more + [OffTarget(c.name)];
    }
  }

  // ---- The capacity gate ----

  function BasicBounds(b: Budget): seq<Check> {
    [Check(ContractLatency, b.latencyMs),
     Check(ContractThroughput, b.throughput),
     Check(InboxLookup, b.queryMs),
     Check(CurrentWindow, b.queryMs),
     Check(TimeRange, b.queryMs),
     Check(PoolUtilization, b.poolFraction),
     Check(QueueWait, b.queueWaitSeconds * 1000.0)]
  }

  function RuntimeBounds(b: Budget): (s: seq<Check>)
    ensures |s| == |KINDS| && forall i :: 0 <= i < |s| ==> s[i] == Check(Runtime(KINDS[i]), b.runtimeSeconds(KINDS[i]))
  {
    seq(|KINDS|, i requires 0 <= i < |KINDS| => Check(Runtime(KINDS[i]), b.runtimeSeconds(KINDS[i])))
  }

  /** The list `before`, with what the first `n` checks object to. */
  function Objections(r: Report, checks: seq<Check>, n: nat, before: seq<Reason>): (o: seq<Reason>)
    requires ValidReport(r) && n <= |checks|
    ensures o == [] <==> before == [] && forall i :: 0 <= i < n ==> Holds(r, checks[i])
  {
    if n == 0 then before
    else Objections(r, checks, n - 1, before) + Missing(r, checks[n - 1].name) + Violation(r, checks[n - 1])
  }

  /** What the first `n` checks observe. */
  function AllObserved(r: Report, checks: seq<Check>, n: nat): (o: map<Name, real>)
    requires n <= |checks|
    ensures forall name :: name in o ==> name in r.metrics && o[name] == r.metrics[name]
    ensures forall i :: 0 <= i < n && checks[i].name in r.metrics ==> checks[i].name in o
    ensures forall name :: name in o ==> exists i :: 0 <= i < n && checks[i].name == name
  {
    if n == 0 then map[]
    else
      var name := checks[n - 1].name;
      var before := AllObserved(r, checks, n - 1);
      if name in r.metrics then before[name := r.metrics[name]] else before
  }

  method CheckBounds(r: Report, checks: seq<Check>, reasons: seq<Reason>)
    returns (reasons': seq<Reason>, observations: map<Name, real>)
    requires ValidReport(r)
    ensures reasons' == Objections(r, checks, |checks|, reasons)
    ensures observations == Observations(r, checks)
  {
    reasons', observations := reasons, map[];
    for i := 0 to |checks|
      invariant reasons' == Objections(r, checks, i, reasons)
      invariant observations == AllObserved(r, checks, i)
    {
      var c := checks[i];
      var value;
      value, reasons' := Metric(r, c.name, reasons');
      if value.Some? {
        observations := observations[c.name := value.value];
      }
      reasons' := Judge(value, c, reasons');
    }
  }

  function MissingScopes(r: Report, n: nat): (m: seq<Reason>)
    requires n <= |SCOPES|
    ensures m == [] <==> forall i :: 0 <= i < n ==> SCOPES[i] in r.complete
  {
    if n == 0 then []
    else MissingScopes(r, n - 1) + if SCOPES[n - 1] in r.complete then [] else [MissingScope(SCOPES[n - 1])]
  }

  predicate CanProject(r: Report) {
    EventCount in r.metrics && EventBytes in r.metrics && ProjectedEvents in r.metrics
  }

  /** The storage that a month of events would take at the measured bytes per event. */
  function Projection(r: Report): real
    requires CanProject(r) && 0.0 < r.metrics[EventCount]
  {
    r.metrics[EventBytes] / r.metrics[EventCount] * r.metrics[ProjectedEvents]
  }

  function ProjectionObjections(r: Report, b: Budget, before: seq<Reason>): seq<Reason>
    requires ValidReport(r)
  {
    before + Missing(r, EventCount) + Missing(r, EventBytes) + Missing(r, ProjectedEvents) + ProjectionViolation(r, b)
  }

  function ProjectionViolation(r: Report, b: Budget): seq<Reason> {
    if !CanProject(r) then []
    else if r.metrics[EventCount] <= 0.0 then [CountNotPositive]
    else if b.storageBytes < Projection(r) then [OffTarget(ProjectedStorage)]
    else []
  }

  function BoundReasons(r: Report, b: Budget): (o: seq<Reason>)
    requires ValidReport(r)
    ensures o == [] <==> BoundsMet(r, b)
  {
    Objections(r, RuntimeBounds(b), |KINDS|, Objections(r, BasicBounds(b), 7, MissingScopes(r, |SCOPES|)))
  }

  predicate BoundsMet(r: Report, b: Budget) {
    && (forall i :: 0 <= i < |SCOPES| ==> SCOPES[i] in r.complete)
    && (forall i :: 0 <= i < 7 ==> Holds(r, BasicBounds(b)[i]))
    && (forall i :: 0 <= i < |KINDS| ==> Holds(r, RuntimeBounds(b)[i]))
  }

  /** What all of the checks observe. */
  function Observations(r: Report, checks: seq<Check>): map<Name, real> {
    AllObserved(r, checks, |checks|)
  }

  function BoundObservations(r: Report, b: Budget): map<Name, real> {
    Observations(r, BasicBounds(b)) + Observations(r, RuntimeBounds(b))
  }

  function CapacityReasons(r: Report, b: Budget): seq<Reason>
    requires ValidReport(r)
  {
    ProjectionObjections(r, b, BoundReasons(r, b))
  }

  function CapacityObservations(r: Report, b: Budget): map<Name, real> {
    var bounds := BoundObservations(r, b);
    if CanProject(r) && 0.0 < r.metrics[EventCount] then bounds[ProjectedStorage := Projection(r)] else bounds
  }

  method EvaluateCapacity(r: Report, b: Budget) returns (reasons: seq<Reason>, observations: map<Name, real>)
    requires ValidReport(r)
    ensures reasons == CapacityReasons(r, b) && observations == CapacityObservations(r, b)
  {
    reasons, observations := EvaluateBounds(r, b);
    var projected;
    reasons, projected := CheckProjection(r, b, reasons);
    if projected.Some? {
      observations := observations[ProjectedStorage := projected.value];
    }
  }

  method EvaluateBounds(r: Report, b: Budget) returns (reasons: seq<Reason>, observations: map<Name, real>)
    requires ValidReport(r)
    ensures reasons == BoundReasons(r, b) && observations == BoundObservations(r, b)
  {
    reasons := CheckScopes(r);
    var basic, runtimes;
    reasons, basic := CheckBounds(r, BasicBounds(b), reasons);
    reasons, runtimes := CheckBounds(r, RuntimeBounds(b), reasons);
    observations := basic + runtimes;
  }

  method CheckScopes(r: Report) returns (reasons: seq<Reason>)
    ensures reasons == MissingScopes(r, |SCOPES|)
  {
    reasons := [];
    for i := 0 to |SCOPES|
      invariant reasons == MissingScopes(r, i)
    {
      if SCOPES[i] !in r.complete { reasons := reasons + [MissingScope(SCOPES[i])]; }
    }
  }

  method CheckProjection(r: Report, b: Budget, reasons: seq<Reason>) returns (more: seq<Reason>, projected: Option<real>)
    requires ValidReport(r)
    ensures more == ProjectionObjections(r, b, reasons)
    ensures projected == if CanProject(r) && 0.0 < r.metrics[EventCount] then Some(Projection(r)) else None
  {
    var count, bytes, events;
    projected := None;
    count, more := Metric(r, EventCount, reasons);
    bytes, more := Metric(r, EventBytes, more);
    events, more := Metric(r, ProjectedEvents, more);
    if count.Some? && bytes.Some? && events.Some? {
      if count.value <= 0.0 {
        more := more + [CountNotPositive];
      } else {
        projected := Some(bytes.value / count.value * events.value);
        if b.storageBytes < projected.value {
          more := more + [OffTarget(ProjectedStorage)];
        }
      }
    }
  }

  predicate AtMost(r: Report, name: Name, bound: real) {
    name in r.metrics && r.metrics[name] <= bound
  }

  predicate AtLeast(r: Report, name: Name, bound: real) {
    name in r.metrics && bound <= r.metrics[name]
  }

  /**
   * What the gate demands, metric by metric: every scope complete, every bound kept, and the bytes of the measured
   * events, scaled up to those of a month, within the storage budget.
   */
  predicate CapacityMet(r: Report, b: Budget) {
    && (forall scope: Scope :: scope in r.complete)
    && AtMost(r, ContractLatency, b.latencyMs) && AtLeast(r, ContractThroughput, b.throughput)
    && AtMost(r, InboxLookup, b.queryMs) && AtMost(r, CurrentWindow, b.queryMs) && AtMost(r, TimeRange, b.queryMs)
    && AtMost(r, PoolUtilization, b.poolFraction) && AtMost(r, QueueWait, b.queueWaitSeconds * 1000.0)
    && (forall kind: Kind :: AtMost(r, Runtime(kind), b.runtimeSeconds(kind)))
    && EventCount in r.metrics && EventBytes in r.metrics && ProjectedEvents in r.metrics
    && 0.0 < r.metrics[EventCount]
    && r.metrics[EventBytes] * r.metrics[ProjectedEvents] <= b.storageBytes * r.metrics[EventCount]
  }

  lemma BasicBoundsMet(r: Report, b: Budget)
    ensures (forall i :: 0 <= i < 7 ==> Holds(r, BasicBounds(b)[i])) <==>
      && AtMost(r, ContractLatency, b.latencyMs) && AtLeast(r, ContractThroughput, b.throughput)
      && AtMost(r, InboxLookup, b.queryMs) && AtMost(r, CurrentWindow, b.queryMs) && AtMost(r, TimeRange, b.queryMs)
      && AtMost(r, PoolUtilization, b.poolFraction) && AtMost(r, QueueWait, b.queueWaitSeconds * 1000.0)
  {
    var c := BasicBounds(b);
    assert (forall i :: 0 <= i < 7 ==> Holds(r, c[i])) <==>
      Holds(r, c[0]) && Holds(r, c[1]) && Holds(r, c[2]) && Holds(r, c[3]) && Holds(r, c[4]) && Holds(r, c[5]) && Holds(r, c[6]);
  }

  lemma RuntimeBoundsMet(r: Report, b: Budget)
    ensures (forall i :: 0 <= i < |KINDS| ==> Holds(r, RuntimeBounds(b)[i])) <==>
            forall kind: Kind :: AtMost(r, Runtime(kind), b.runtimeSeconds(kind))
  {
    forall i | 0 <= i < |KINDS|
      ensures Holds(r, RuntimeBounds(b)[i]) <==> AtMost(r, Runtime(KINDS[i]), b.runtimeSeconds(KINDS[i]))
    {
    }
    if forall i :: 0 <= i < |KINDS| ==> Holds(r, RuntimeBounds(b)[i]) {
      forall kind: Kind
        ensures AtMost(r, Runtime(kind), b.runtimeSeconds(kind))
      {
        var i := KindIsListed(kind);
      }
    }
  }

  lemma ScopesMet(r: Report)
    ensures (forall i :: 0 <= i < |SCOPES| ==> SCOPES[i] in r.complete) <==> forall scope: Scope :: scope in r.complete
  {
    if forall i :: 0 <= i < |SCOPES| ==> SCOPES[i] in r.complete {
      forall scope: Scope
        ensures scope in r.complete
      {
        ScopeIsListed(scope);
      }
    }
  }

  lemma QuotientWithin(bytes: real, count: real, events: real, limit: real)
    requires 0.0 < count
    ensures bytes / count * events <= limit <==> bytes * events <= limit * count
  {
    var q := bytes / count * events;
    assert bytes / count * count == bytes;
    assert q * count == bytes * events;
    if q <= limit { assert q * count <= limit * count; }
    if limit < q { assert 0.0 < (q - limit) * count; }
  }

  lemma CapacityMetIs(r: Report, b: Budget)
    ensures CapacityMet(r, b) <==>
      BoundsMet(r, b) && CanProject(r) && 0.0 < r.metrics[EventCount] && Projection(r) <= b.storageBytes
  {
    ScopesMet(r);
    BasicBoundsMet(r, b);
    RuntimeBoundsMet(r, b);
    if CanProject(r) && 0.0 < r.metrics[EventCount] {
      QuotientWithin(r.metrics[EventBytes], r.metrics[EventCount], r.metrics[ProjectedEvents], b.storageBytes);
    }
  }

  lemma ProjectionPasses(r: Report, b: Budget, before: seq<Reason>)
    requires ValidReport(r)
    ensures ProjectionObjections(r, b, before) == [] <==>
            before == [] && CanProject(r) && 0.0 < r.metrics[EventCount] && Projection(r) <= b.storageBytes
  {
  }

  lemma CapacityPassesExactlyWhenMet(r: Report, b: Budget)
    requires ValidReport(r)
    ensures CapacityReasons(r, b) == [] <==> CapacityMet(r, b)
  {
    CapacityMetIs(r, b);
    ProjectionPasses(r, b, BoundReasons(r, b));
  }

  // ---- The provider gate ----

  type Budgets = map<string, ProviderBudget>

  function ProviderChecks(id: Padded, b: ProviderBudget): seq<Check> {
    [Check(Samples(id), b.samples),
     Check(FailureFraction(id), b.failureFraction),
     Check(HttpLatency(id), b.latencySeconds * 1000.0)]
  }

  /** The list `before`, with what is missing for the first `n` checks. */
  function Lookups(r: Report, checks: seq<Check>, n: nat, before: seq<Reason>): (o: seq<Reason>)
    requires ValidReport(r) && n <= |checks|
    ensures o == [] <==> before == [] && forall i :: 0 <= i < n ==> checks[i].name in r.metrics
    ensures DuplicateProviders in o <==> DuplicateProviders in before
  {
    if n == 0 then before else Lookups(r, checks, n - 1, before) + Missing(r, checks[n - 1].name)
  }

  /** The list `before`, with the violated ones of the first `n` checks. */
  function Violations(r: Report, checks: seq<Check>, n: nat, before: seq<Reason>): (o: seq<Reason>)
    requires n <= |checks|
    ensures o == [] <==> before == [] && forall i :: 0 <= i < n && checks[i].name in r.metrics ==> Holds(r, checks[i])
    ensures DuplicateProviders in o <==> DuplicateProviders in before
  {
    if n == 0 then before else Violations(r, checks, n - 1, before) + Violation(r, checks[n - 1])
  }

  predicate ProviderMet(r: Report, budgets: Budgets, id: Padded) {
    id.core in budgets && forall i :: 0 <= i < 3 ==> Holds(r, ProviderChecks(id, budgets[id.core])[i])
  }

  /** All three metrics of a provider are looked up before any of them is judged. */
  function ProviderObjections(r: Report, budgets: Budgets, id: Padded, before: seq<Reason>): (o: seq<Reason>)
    requires ValidReport(r)
    ensures o == [] <==> before == [] && ProviderMet(r, budgets, id)
    ensures DuplicateProviders in o <==> DuplicateProviders in before
  {
    if id.core !in budgets then before + [NoBudget(id)]
    else
      var c := ProviderChecks(id, budgets[id.core]);
      Violations(r, c, 3, Lookups(r, c, 3, before))
  }

  /** The first `n` selected providers keep their budgets. */
  predicate AllMet(r: Report, budgets: Budgets, selected: seq<Padded>, n: nat)
    requires n <= |selected|
  {
    n == 0 || (AllMet(r, budgets, selected, n - 1) && ProviderMet(r, budgets, selected[n - 1]))
  }

  function AllProviderObjections(r: Report, budgets: Budgets, selected: seq<Padded>, n: nat, before: seq<Reason>)
    : (o: seq<Reason>)
    requires ValidReport(r) && n <= |selected|
    ensures o == [] <==> before == [] && AllMet(r, budgets, selected, n)
    ensures DuplicateProviders in o <==> DuplicateProviders in before
  {
    if n == 0 then before
    else ProviderObjections(r, budgets, selected[n - 1], AllProviderObjections(r, budgets, selected, n - 1, before))
  }

  function ProviderReasons(r: Report, budgets: Budgets, selected: seq<Padded>): seq<Reason>
    requires ValidReport(r)
  {
    var before := if NoRepetition(selected) then [] else [DuplicateProviders];
    if Providers !in r.complete then before + [ProviderIncomplete]
    else AllProviderObjections(r, budgets, selected, |selected|, before)
  }

  /** What the first `n` selected providers with a budget have measured, added to `before`. */
  function ProviderObservations(r: Report, budgets: Budgets, selected: seq<Padded>, n: nat, before: map<Name, real>)
    : (o: map<Name, real>)
    requires n <= |selected|
    ensures (forall name :: name in before ==> name in r.metrics && before[name] == r.metrics[name]) ==>
            forall name :: name in o ==> name in r.metrics && o[name] == r.metrics[name]
  {
    if n == 0 then before
    else
      var earlier := ProviderObservations(r, budgets, selected, n - 1, before);
      var id := selected[n - 1];
      if id.core in budgets then earlier + AllObserved(r, ProviderChecks(id, budgets[id.core]), 3) else earlier
  }

  method EvaluateProviders(r: Report, budgets: Budgets, primary: Padded, fallbacks: seq<Padded>)
    returns (reasons: seq<Reason>, observations: map<Name, real>)
    requires ValidReport(r)
    ensures reasons == ProviderReasons(r, budgets, [primary] + fallbacks)
    ensures observations == ProvidersObserved(r, budgets, [primary] + fallbacks)
  {
    var selected := [primary] + fallbacks;
    reasons, observations := if NoRepetition(selected) then [] else [DuplicateProviders], map[];
    if Providers !in r.complete {
      return reasons + [ProviderIncomplete], observations;
    }
    reasons, observations := EvaluateEach(r, budgets, selected, reasons);
  }

  function ProvidersObserved(r: Report, budgets: Budgets, selected: seq<Padded>): (o: map<Name, real>)
    ensures forall name :: name in o ==> name in r.metrics && o[name] == r.metrics[name]
  {
    if Providers !in r.complete then map[] else ProviderObservations(r, budgets, selected, |selected|, map[])
  }

  method EvaluateEach(r: Report, budgets: Budgets, selected: seq<Padded>, reasons: seq<Reason>)
    returns (more: seq<Reason>, observations: map<Name, real>)
    requires ValidReport(r)
    ensures more == AllProviderObjections(r, budgets, selected, |selected|, reasons)
    ensures observations == ProviderObservations(r, budgets, selected, |selected|, map[])
  {
    more, observations := reasons, map[];
    for i := 0 to |selected|
      invariant more == AllProviderObjections(r, budgets, selected, i, reasons)
      invariant observations == ProviderObservations(r, budgets, selected, i, map[])
    {
      var observed;
      more, observed := EvaluateProvider(r, budgets, selected[i], more);
      observations := observations + observed;
    }
  }

  method EvaluateProvider(r: Report, budgets: Budgets, id: Padded, reasons: seq<Reason>)
    returns (more: seq<Reason>, observed: map<Name, real>)
    requires ValidReport(r)
    ensures more == ProviderObjections(r, budgets, id, reasons)
    ensures observed == if id.core in budgets then AllObserved(r, ProviderChecks(id, budgets[id.core]), 3) else map[]
  {
    if id.core !in budgets {
      return reasons + [NoBudget(id)], map[];
    }
    more, observed := CheckProvider(r, ProviderChecks(id, budgets[id.core]), reasons);
  }

  method CheckProvider(r: Report, c: seq<Check>, reasons: seq<Reason>)
    returns (more: seq<Reason>, observed: map<Name, real>)
    requires ValidReport(r) && |c| == 3
    ensures more == Violations(r, c, 3, Lookups(r, c, 3, reasons)) && observed == AllObserved(r, c, 3)
  {
    var samples, failures, latency;
    samples, more := Metric(r, c[0].name, reasons);
    assert more == Lookups(r, c, 1, reasons);
    failures, more := Metric(r, c[1].name, more);
    latency, more := Metric(r, c[2].name, more);
    ghost var found := more;
    assert found == Lookups(r, c, 3, reasons);
    observed := map[];
    if samples.Some? { observed := observed[c[0].name := samples.value]; }
    assert observed == AllObserved(r, c, 1);
    more := Judge(samples, c[0], more);
    assert more == Violations(r, c, 1, found);
    if failures.Some? { observed := observed[c[1].name := failures.value]; }
    more := Judge(failures, c[1], more);
    if latency.Some? { observed := observed[c[2].name := latency.value]; }
    more := Judge(latency, c[2], more);
  }

  /** What the gate demands of one provider: a budget, enough samples, few enough failures, and a short enough latency. */
  predicate WithinBudget(r: Report, budgets: Budgets, id: Padded) {
    && id.core in budgets
    && AtLeast(r, Samples(id), budgets[id.core].samples)
    && AtMost(r, FailureFraction(id), budgets[id.core].failureFraction)
    && AtMost(r, HttpLatency(id), budgets[id.core].latencySeconds * 1000.0)
  }

  /** And of all of them. */
  predicate ProvidersMet(r: Report, budgets: Budgets, selected: seq<Padded>) {
    && (forall i, k :: 0 <= i < k < |selected| ==> selected[i] != selected[k])
    && Providers in r.complete && forall i :: 0 <= i < |selected| ==> WithinBudget(r, budgets, selected[i])
  }

  lemma ProviderMetIs(r: Report, budgets: Budgets, id: Padded)
    ensures ProviderMet(r, budgets, id) <==> WithinBudget(r, budgets, id)
  {
    if id.core in budgets {
      var c := ProviderChecks(id, budgets[id.core]);
      assert (forall i :: 0 <= i < 3 ==> Holds(r, c[i])) <==> Holds(r, c[0]) && Holds(r, c[1]) && Holds(r, c[2]);
    }
  }

  lemma {:induction false} AllMetIs(r: Report, budgets: Budgets, selected: seq<Padded>, n: nat)
    requires n <= |selected|
    ensures AllMet(r, budgets, selected, n) <==> forall i :: 0 <= i < n ==> WithinBudget(r, budgets, selected[i])
  {
    if n > 0 {
      AllMetIs(r, budgets, selected, n - 1);
      ProviderMetIs(r, budgets, selected[n - 1]);
    }
  }

  lemma ProvidersPassExactlyWhenMet(r: Report, budgets: Budgets, selected: seq<Padded>)
    requires ValidReport(r)
    ensures ProviderReasons(r, budgets, selected) == [] <==> ProvidersMet(r, budgets, selected)
  {
    AllMetIs(r, budgets, selected, |selected|);
  }

  // ---- Monotonicity ----

  /** Every metric of `r` is also in `s`, with a value at least as good, and nothing that was complete is not. */
  predicate AtLeastAsGood(r: Report, s: Report) {
    && r.complete <= s.complete
    && forall name :: name in r.metrics ==>
         && name in s.metrics
         && if name.MoreIsBetter() then r.metrics[name] <= s.metrics[name] else s.metrics[name] <= r.metrics[name]
  }

  lemma BetterHolds(r: Report, s: Report, c: Check)
    requires AtLeastAsGood(r, s) && Holds(r, c)
    ensures Holds(s, c)
  {
  }

  lemma BetterProjection(r: Report, s: Report)
    requires ValidReport(r) && ValidReport(s) && AtLeastAsGood(r, s) && CanProject(r) && 0.0 < r.metrics[EventCount]
    ensures CanProject(s) && 0.0 < s.metrics[EventCount] && Projection(s) <= Projection(r)
  {
    QuotientOfBetter(r.metrics[EventBytes], r.metrics[EventCount], r.metrics[ProjectedEvents],
                     s.metrics[EventBytes], s.metrics[EventCount], s.metrics[ProjectedEvents]);
  }

  lemma QuotientOfBetter(bytes: real, count: real, events: real, bytes': real, count': real, events': real)
    requires 0.0 <= bytes' <= bytes && 0.0 < count <= count' && 0.0 <= events' <= events
    ensures bytes' / count' * events' <= bytes / count * events
  {
    var q, q' := bytes / count, bytes' / count';
    assert q' * count' == bytes' && q * count == bytes;
    assert q' * count <= q' * count';
    assert (q - q') * count >= 0.0;
    assert q' <= q;
    assert q' * events' <= q * events' <= q * events;
  }

  /** A report that is at least as good as a passing one passes, although the projection is not linear. */
  lemma CapacityIsMonotone(r: Report, s: Report, b: Budget)
    requires ValidReport(r) && ValidReport(s) && AtLeastAsGood(r, s) && CapacityReasons(r, b) == []
    ensures CapacityReasons(s, b) == []
  {
    CapacityPassesExactlyWhenMet(r, b);
    CapacityPassesExactlyWhenMet(s, b);
    CapacityMetIs(r, b);
    CapacityMetIs(s, b);
    forall i | 0 <= i < 7
      ensures Holds(s, BasicBounds(b)[i])
    {
      BetterHolds(r, s, BasicBounds(b)[i]);
    }
    forall i | 0 <= i < |KINDS|
      ensures Holds(s, RuntimeBounds(b)[i])
    {
      BetterHolds(r, s, RuntimeBounds(b)[i]);
    }
    BetterProjection(r, s);
  }

  lemma ProvidersAreMonotone(r: Report, s: Report, budgets: Budgets, selected: seq<Padded>)
    requires ValidReport(r) && ValidReport(s) && AtLeastAsGood(r, s) && ProviderReasons(r, budgets, selected) == []
    ensures ProviderReasons(s, budgets, selected) == []
  {
    ProvidersPassExactlyWhenMet(r, budgets, selected);
    ProvidersPassExactlyWhenMet(s, budgets, selected);
    AllMetIs(r, budgets, selected, |selected|);
    AllMetIs(s, budgets, selected, |selected|);
    BetterProviders(r, s, budgets, selected, |selected|);
  }

  lemma {:induction false} BetterProviders(r: Report, s: Report, budgets: Budgets, selected: seq<Padded>, n: nat)
    requires AtLeastAsGood(r, s) && n <= |selected| && AllMet(r, budgets, selected, n)
    ensures AllMet(s, budgets, selected, n)
  {
    if n > 0 {
      BetterProviders(r, s, budgets, selected, n - 1);
      BetterProvider(r, s, budgets, selected[n - 1]);
    }
  }

  lemma BetterProvider(r: Report, s: Report, budgets: Budgets, id: Padded)
    requires AtLeastAsGood(r, s) && ProviderMet(r, budgets, id)
    ensures ProviderMet(s, budgets, id)
  {
    forall i | 0 <= i < 3
      ensures Holds(s, ProviderChecks(id, budgets[id.core])[i])
    {
      BetterHolds(r, s, ProviderChecks(id, budgets[id.core])[i]);
    }
  }

  /** In which scope the gate looks for a metric; it looks for no other metric. */
  function LookedUpIn(name: Name): Option<Scope> {
    match name
    case ContractLatency => Some(EventProcessing)
    case ContractThroughput => Some(EventProcessing)
    case InboxLookup => Some(Database)
    case CurrentWindow => Some(Database)
    case TimeRange => Some(Database)
    case PoolUtilization => Some(Database)
    case EventCount => Some(Database)
    case QueueWait => Some(Jobs)
    case Runtime(_) => Some(Jobs)
    case EventBytes => Some(Storage)
    case ProjectedEvents => Some(Storage)
    case _ => None
  }

  /** Fail closed: without a metric that it looks for, or without a complete scope, the gate does not pass. */
  lemma GapsFailTheGate(r: Report, b: Budget, name: Name, scope: Scope)
    requires ValidReport(r) && ((LookedUpIn(name).Some? && name !in r.metrics) || scope !in r.complete)
    ensures CapacityReasons(r, b) != []
  {
    CapacityPassesExactlyWhenMet(r, b);
  }

  lemma ScopeIsListed(scope: Scope)
    ensures scope in SCOPES
  {
    assert SCOPES[0] == Providers && SCOPES[1] == EventProcessing && SCOPES[2] == Database && SCOPES[3] == Jobs
           && SCOPES[4] == Storage;
  }

  lemma KindIsListed(kind: Kind) returns (i: nat)
    ensures i < |KINDS| && KINDS[i] == kind
  {
    i := match kind
      case ExperimentExecution => 0
      case WalkForwardExecution => 1
      case MarketDataImport => 2
      case MarketDataPoll => 3
      case MarketDataReplay => 4
      case MarketContextEvaluation => 5
      case AlertEvaluation => 6
      case DecisionEvaluation => 7
      case DatasetFileImport => 8
      case OptimizationExecution => 9;
  }

  /** The metric is there and misses its target. */
  predicate Misses(r: Report, b: Budget, name: Name) {
    name in r.metrics && match name
      case ContractLatency => b.latencyMs < r.metrics[name]
      case ContractThroughput => r.metrics[name] < b.throughput
      case InboxLookup => b.queryMs < r.metrics[name]
      case CurrentWindow => b.queryMs < r.metrics[name]
      case TimeRange => b.queryMs < r.metrics[name]
      case PoolUtilization => b.poolFraction < r.metrics[name]
      case QueueWait => b.queueWaitSeconds * 1000.0 < r.metrics[name]
      case Runtime(kind) => b.runtimeSeconds(kind) < r.metrics[name]
      case _ => false
  }

  /** A month of events would not fit. */
  predicate Outgrows(r: Report, b: Budget) {
    && EventCount in r.metrics && EventBytes in r.metrics && ProjectedEvents in r.metrics && 0.0 < r.metrics[EventCount]
    && b.storageBytes * r.metrics[EventCount] < r.metrics[EventBytes] * r.metrics[ProjectedEvents]
  }

  /** Which reasons a report gives rise to. */
  predicate Objected(r: Report, b: Budget, x: Reason) {
    match x
    case MissingScope(scope) => scope !in r.complete
    case NoEvidence(name) => LookedUpIn(name).Some? && LookedUpIn(name).value !in r.present
    case NoMetric(name) => LookedUpIn(name).Some? && LookedUpIn(name).value in r.present && name !in r.metrics
    case OffTarget(name) => Misses(r, b, name) || (name == ProjectedStorage && Outgrows(r, b))
    case CountNotPositive =>
      && EventCount in r.metrics && EventBytes in r.metrics && ProjectedEvents in r.metrics
      && r.metrics[EventCount] <= 0.0
    case _ => false
  }

  lemma {:induction false} ObjectionsAre(r: Report, checks: seq<Check>, n: nat, before: seq<Reason>, x: Reason)
    requires ValidReport(r) && n <= |checks|
    ensures x in Objections(r, checks, n, before) <==>
      x in before || exists i :: 0 <= i < n && (x in Missing(r, checks[i].name) || x in Violation(r, checks[i]))
  {
    if n > 0 {
      ObjectionsAre(r, checks, n - 1, before, x);
    }
  }

  lemma {:induction false} MissingScopesAre(r: Report, n: nat, x: Reason)
    requires n <= |SCOPES|
    ensures x in MissingScopes(r, n) <==>
      x.MissingScope? && x.scope !in r.complete && exists i :: 0 <= i < n && SCOPES[i] == x.scope
  {
    if n > 0 {
      MissingScopesAre(r, n - 1, x);
    }
  }

  /** What one check objects to, under the name of its metric. */
  predicate ObjectedAt(r: Report, c: Check, x: Reason)
    requires ValidReport(r)
  {
    x in Missing(r, c.name) || x in Violation(r, c)
  }

  /** The reason is about a metric of the basic bounds. */
  predicate Basic(r: Report, b: Budget, x: Reason)
    requires ValidReport(r)
  {
    exists i :: 0 <= i < 7 && ObjectedAt(r, BasicBounds(b)[i], x)
  }

  lemma BasicObjectionsAre(r: Report, b: Budget, before: seq<Reason>, x: Reason)
    requires ValidReport(r)
    ensures x in Objections(r, BasicBounds(b), 7, before) <==> x in before || Basic(r, b, x)
  {
    ObjectionsAre(r, BasicBounds(b), 7, before, x);
    forall i | 0 <= i < 7
      ensures ObjectedAt(r, BasicBounds(b)[i], x) <==>
        x in Missing(r, BasicBounds(b)[i].name) || x in Violation(r, BasicBounds(b)[i])
    {
    }
  }

  lemma RuntimeObjectionsAre(r: Report, b: Budget, before: seq<Reason>, x: Reason)
    requires ValidReport(r)
    ensures x in Objections(r, RuntimeBounds(b), |KINDS|, before) <==>
      x in before || exists kind: Kind :: ObjectedAt(r, Check(Runtime(kind), b.runtimeSeconds(kind)), x)
  {
    var c := RuntimeBounds(b);
    ObjectionsAre(r, c, |KINDS|, before, x);
    if i :| 0 <= i < |KINDS| && (x in Missing(r, c[i].name) || x in Violation(r, c[i])) {
      assert ObjectedAt(r, Check(Runtime(KINDS[i]), b.runtimeSeconds(KINDS[i])), x);
    }
    if kind: Kind :| ObjectedAt(r, Check(Runtime(kind), b.runtimeSeconds(kind)), x) {
      var i := KindIsListed(kind);
      assert c[i] == Check(Runtime(kind), b.runtimeSeconds(kind));
    }
  }

  predicate ByRuntime(r: Report, b: Budget, x: Reason)
    requires ValidReport(r)
  {
    exists kind: Kind :: ObjectedAt(r, Check(Runtime(kind), b.runtimeSeconds(kind)), x)
  }

  predicate ByProjection(r: Report, b: Budget, x: Reason)
    requires ValidReport(r)
  {
    x in Missing(r, EventCount) || x in Missing(r, EventBytes) || x in Missing(r, ProjectedEvents)
    || x in ProjectionViolation(r, b)
  }

  lemma CapacityReasonsAre(r: Report, b: Budget, x: Reason)
    requires ValidReport(r)
    ensures x in CapacityReasons(r, b) <==>
      (x.MissingScope? && x.scope !in r.complete) || Basic(r, b, x) || ByRuntime(r, b, x) || ByProjection(r, b, x)
  {
    var scopes := MissingScopes(r, |SCOPES|);
    MissingScopesAre(r, |SCOPES|, x);
    BasicObjectionsAre(r, b, scopes, x);
    RuntimeObjectionsAre(r, b, Objections(r, BasicBounds(b), 7, scopes), x);
    if x.MissingScope? { ScopeIsListed(x.scope); }
  }

  lemma MissingIs(r: Report, name: Name, x: Reason)
    requires ValidReport(r)
    ensures x in Missing(r, name) <==>
      (x == NoEvidence(name) && name.Scope() !in r.present)
      || (x == NoMetric(name) && name.Scope() in r.present && name !in r.metrics)
  {
  }

  /** The metrics with a bound that does not depend on a kind of job. */
  predicate IsBasic(name: Name) {
    name.ContractLatency? || name.ContractThroughput? || name.InboxLookup? || name.CurrentWindow? || name.TimeRange?
    || name.PoolUtilization? || name.QueueWait?
  }

  predicate Named(x: Reason) {
    x.NoEvidence? || x.NoMetric? || x.OffTarget?
  }

  /** One check of the list says about its metric what the report gives rise to. */
  lemma ObjectedAtIs(r: Report, b: Budget, c: Check, x: Reason)
    requires ValidReport(r) && LookedUpIn(c.name) == Some(c.name.Scope()) && c.name != ProjectedStorage
    requires c.name in r.metrics ==> (Misses(r, b, c.name) <==> !c.Kept(r.metrics[c.name]))
    ensures ObjectedAt(r, c, x) <==> Named(x) && x.name == c.name && Objected(r, b, x)
  {
    MissingIs(r, c.name, x);
  }

  lemma BasicIs(r: Report, b: Budget, x: Reason)
    requires ValidReport(r)
    ensures Basic(r, b, x) <==>
      Named(x) && Objected(r, b, x) && IsBasic(x.name)
  {
    if Basic(r, b, x) {
      var i :| 0 <= i < 7 && ObjectedAt(r, BasicBounds(b)[i], x);
      BasicAt(r, b, i, x);
      BasicNames(b, i);
    }
    if Named(x) && Objected(r, b, x) && IsBasic(x.name) {
      var i := BasicIsListed(b, x.name);
      BasicAt(r, b, i, x);
    }
  }

  lemma BasicAt(r: Report, b: Budget, i: nat, x: Reason)
    requires ValidReport(r) && i < 7
    ensures ObjectedAt(r, BasicBounds(b)[i], x) <==> Named(x) && x.name == BasicBounds(b)[i].name && Objected(r, b, x)
  {
    ObjectedAtIs(r, b, BasicBounds(b)[i], x);
  }

  lemma ByRuntimeIs(r: Report, b: Budget, x: Reason)
    requires ValidReport(r)
    ensures ByRuntime(r, b, x) <==>
      Named(x) && x.name.Runtime? && Objected(r, b, x)
  {
    if Named(x) && x.name.Runtime? && Objected(r, b, x) {
      assert ObjectedAt(r, Check(Runtime(x.name.kind), b.runtimeSeconds(x.name.kind)), x);
    }
  }

  lemma ByProjectionIs(r: Report, b: Budget, x: Reason)
    requires ValidReport(r)
    ensures ByProjection(r, b, x) <==>
      && Objected(r, b, x)
      && (x.CountNotPositive? || x == OffTarget(ProjectedStorage)
          || ((x.NoEvidence? || x.NoMetric?) && x.name in {EventCount, EventBytes, ProjectedEvents}))
  {
    MissingIs(r, EventCount, x);
    MissingIs(r, EventBytes, x);
    MissingIs(r, ProjectedEvents, x);
    if CanProject(r) && 0.0 < r.metrics[EventCount] {
      QuotientWithin(r.metrics[EventBytes], r.metrics[EventCount], r.metrics[ProjectedEvents], b.storageBytes);
    }
  }

  /** The reasons of the capacity gate are exactly those that the report gives rise to. */
  lemma ReasonIsGivenExactlyWhen(r: Report, b: Budget, x: Reason)
    requires ValidReport(r)
    ensures x in CapacityReasons(r, b) <==> Objected(r, b, x)
  {
    CapacityReasonsAre(r, b, x);
    BasicIs(r, b, x);
    ByRuntimeIs(r, b, x);
    ByProjectionIs(r, b, x);
  }

  lemma BasicIsListed(b: Budget, name: Name) returns (i: nat)
    requires IsBasic(name)
    ensures i < 7 && BasicBounds(b)[i].name == name
  {
    i := match name
      case ContractLatency => 0
      case ContractThroughput => 1
      case InboxLookup => 2
      case CurrentWindow => 3
      case TimeRange => 4
      case PoolUtilization => 5
      case QueueWait => 6;
  }

  lemma BasicNames(b: Budget, i: nat)
    requires i < 7
    ensures IsBasic(BasicBounds(b)[i].name)
  {
  }

  lemma BasicObserved(r: Report, b: Budget, name: Name)
    ensures name in Observations(r, BasicBounds(b)) <==> name in r.metrics && IsBasic(name)
  {
    if name in Observations(r, BasicBounds(b)) {
      var i :| 0 <= i < 7 && BasicBounds(b)[i].name == name;
      BasicNames(b, i);
    }
    if IsBasic(name) {
      var i := BasicIsListed(b, name);
    }
  }

  lemma RuntimesObserved(r: Report, b: Budget, name: Name)
    ensures name in Observations(r, RuntimeBounds(b)) <==> name in r.metrics && name.Runtime?
  {
    if name.Runtime? {
      var i := KindIsListed(name.kind);
      assert RuntimeBounds(b)[i].name == name;
    }
  }

  lemma BoundsObserved(r: Report, b: Budget, name: Name)
    ensures name in BoundObservations(r, b) <==> name in r.metrics && (name.Runtime? || IsBasic(name))
    ensures name in BoundObservations(r, b) ==> BoundObservations(r, b)[name] == r.metrics[name]
  {
    BasicObserved(r, b, name);
    RuntimesObserved(r, b, name);
  }

  lemma BesideTheProjection(r: Report, b: Budget, name: Name)
    requires name != ProjectedStorage
    ensures name in CapacityObservations(r, b) <==> name in BoundObservations(r, b)
    ensures name in CapacityObservations(r, b) ==> CapacityObservations(r, b)[name] == BoundObservations(r, b)[name]
  {
  }

  /** What is recorded beside them: the bounded metrics that were measured. */
  lemma ObservedExactly(r: Report, b: Budget, name: Name)
    requires ValidReport(r) && name != ProjectedStorage
    ensures name in CapacityObservations(r, b) <==> name in r.metrics && (name.Runtime? || IsBasic(name))
    ensures name in CapacityObservations(r, b) ==> CapacityObservations(r, b)[name] == r.metrics[name]
  {
    BoundsObserved(r, b, name);
    BesideTheProjection(r, b, name);
  }

  /** And the projection, where there is one: as many bytes per event as were measured. */
  lemma ProjectionIsObserved(r: Report, b: Budget)
    requires ValidReport(r)
    ensures ProjectedStorage in CapacityObservations(r, b) <==>
      EventCount in r.metrics && EventBytes in r.metrics && ProjectedEvents in r.metrics && 0.0 < r.metrics[EventCount]
    ensures ProjectedStorage in CapacityObservations(r, b) ==>
      CapacityObservations(r, b)[ProjectedStorage] * r.metrics[EventCount] ==
      r.metrics[EventBytes] * r.metrics[ProjectedEvents]
  {
    BoundsObserved(r, b, ProjectedStorage);
    if CanProject(r) && 0.0 < r.metrics[EventCount] {
      var bytes, count := r.metrics[EventBytes], r.metrics[EventCount];
      assert bytes / count * count == bytes;
    }
  }

  // ---- The records ----

  lemma ProjectionIsNotNegative(r: Report)
    requires ValidReport(r) && CanProject(r) && 0.0 < r.metrics[EventCount]
    ensures 0.0 <= Projection(r)
  {
    var bytes, count, events := r.metrics[EventBytes], r.metrics[EventCount], r.metrics[ProjectedEvents];
    assert 0.0 <= bytes / count;
    assert 0.0 <= bytes / count * events;
  }

  /** The observations that a check records are never negative, so that the record is always accepted. */
  lemma ObservationsAreNotNegative(r: Report, b: Budget)
    requires ValidReport(r)
    ensures forall name :: name in CapacityObservations(r, b) ==> 0.0 <= CapacityObservations(r, b)[name]
  {
    if CanProject(r) && 0.0 < r.metrics[EventCount] {
      ProjectionIsNotNegative(r);
    }
  }

  datatype Gate = RepositoryEvidence | ProviderSelection | CapacityTargets

  /** The gates of the eight requirements, in order. */
  const GATES := [RepositoryEvidence, RepositoryEvidence, RepositoryEvidence, RepositoryEvidence, RepositoryEvidence,
                  ProviderSelection, CapacityTargets, RepositoryEvidence]

  /** A failure of a check: an evidence file that is not in the repository, or a reason of a gate. */
  datatype Failure = MissingFile(index: nat) | GateReason(reason: Reason)

  datatype Requirement = Requirement(passed: bool, failures: seq<Failure>, observations: map<Name, real>)

  /** The validator of a single check. */
  predicate ValidRequirement(c: Requirement) {
    && c.passed == (c.failures == [])
    && forall name :: name in c.observations ==> 0.0 <= c.observations[name]
  }

  datatype FreezeRecord = FreezeRecord(primary: Padded, fallbacks: seq<Padded>, checks: seq<Requirement>)

  /** The validator of the record, on the providers as it keeps them: trimmed. */
  predicate ValidRecord(f: FreezeRecord) {
    && !f.primary.Blank() && f.primary.Trimmed()
    && f.fallbacks != [] && (forall i :: 0 <= i < |f.fallbacks| ==> !f.fallbacks[i].Blank() && f.fallbacks[i].Trimmed())
    && NoRepetition([f.primary] + f.fallbacks)
    && |f.checks| == |GATES| && forall i :: 0 <= i < |f.checks| ==> ValidRequirement(f.checks[i])
  }

  /** In an accepted record no check can be replaced by one that hides its failures or observes a negative value. */
  lemma RecordTampering(f: FreezeRecord, i: nat, c: Requirement)
    requires ValidRecord(f) && i < |f.checks|
    ensures ValidRecord(f.(checks := f.checks[i := c])) <==>
      (c.passed <==> |c.failures| == 0) && forall name :: name in c.observations ==> !(c.observations[name] < 0.0)
  {
    var checks := f.checks[i := c];
    assert checks[i] == c && forall k :: 0 <= k < |checks| && k != i ==> checks[k] == f.checks[k];
  }

  /** Everything that is evaluated for one record; `missing` counts the missing files of each requirement. */
  datatype Evaluation = Evaluation(report: Report, budgets: Budgets, budget: Budget, missing: seq<nat>)

  predicate ValidEvaluation(e: Evaluation) {
    ValidReport(e.report) && |e.missing| == |GATES|
  }

  function MissingFiles(n: nat): (f: seq<Failure>)
    ensures |f| == n
  {
    seq(n, i requires 0 <= i < n => MissingFile(i))
  }

  function Failures(reasons: seq<Reason>): (f: seq<Failure>)
    ensures |f| == |reasons| && forall i :: 0 <= i < |f| ==> f[i] == GateReason(reasons[i])
  {
    seq(|reasons|, i requires 0 <= i < |reasons| => GateReason(reasons[i]))
  }

  /** Each failure is recorded once, where it first occurs. */
  function Once(f: seq<Failure>, n: nat): (o: seq<Failure>)
    requires n <= |f|
    ensures o == [] <==> n == 0
    ensures forall x :: x in o <==> x in f[..n]
    ensures NoRepetition(o)
  {
    if n == 0 then []
    else
      var earlier := Once(f, n - 1);
      assert f[..n] == f[..n - 1] + [f[n - 1]];
      if f[n - 1] in earlier then earlier else earlier + [f[n - 1]]
  }

  function ReasonsAt(e: Evaluation, selected: seq<Padded>, gate: Gate): seq<Reason>
    requires ValidEvaluation(e)
  {
    match gate
    case RepositoryEvidence => []
    case ProviderSelection => ProviderReasons(e.report, e.budgets, selected)
    case CapacityTargets => CapacityReasons(e.report, e.budget)
  }

  function ObservedAt(e: Evaluation, selected: seq<Padded>, gate: Gate): map<Name, real> {
    match gate
    case RepositoryEvidence => map[]
    case ProviderSelection => ProvidersObserved(e.report, e.budgets, selected)
    case CapacityTargets => CapacityObservations(e.report, e.budget)
  }

  function CheckAt(e: Evaluation, selected: seq<Padded>, i: nat): Requirement
    requires ValidEvaluation(e) && i < |GATES|
  {
    var failures := MissingFiles(e.missing[i]) + Failures(ReasonsAt(e, selected, GATES[i]));
    Requirement(failures == [], Once(failures, |failures|), ObservedAt(e, selected, GATES[i]))
  }

  lemma CheckIsValid(e: Evaluation, selected: seq<Padded>, i: nat)
    requires ValidEvaluation(e) && i < |GATES|
    ensures ValidRequirement(CheckAt(e, selected, i))
  {
    ObservationsAreNotNegative(e.report, e.budget);
  }

  function Trimmed(ids: seq<Padded>): (t: seq<Padded>)
    ensures |t| == |ids| && forall i :: 0 <= i < |t| ==> t[i] == ids[i].Strip()
  {
    seq(|ids|, i requires 0 <= i < |ids| => ids[i].Strip())
  }

  /** The freeze record, if its fields and its validator admit it. */
  function Evaluate(e: Evaluation, primary: Padded, fallbacks: seq<Padded>): (f: Option<FreezeRecord>)
    requires ValidEvaluation(e)
    ensures f.Some? ==> ValidRecord(f.value)
  {
    var selected := [primary] + fallbacks;
    var checks := seq(|GATES|, i requires 0 <= i < |GATES| => CheckAt(e, selected, i));
    var record := FreezeRecord(primary.Strip(), Trimmed(fallbacks), checks);
    if 1 <= primary.Length() <= 50 && ValidRecord(record) then Some(record) else None
  }

  predicate ReadyToFreeze(f: FreezeRecord) {
    forall i :: 0 <= i < |f.checks| ==> f.checks[i].passed
  }

  /** Providers that a record can carry: there is a fallback, none is blank, and they stay distinct once trimmed. */
  predicate RecordableProviders(primary: Padded, fallbacks: seq<Padded>) {
    && fallbacks != [] && !primary.Blank() && primary.Length() <= 50
    && (forall i :: 0 <= i < |fallbacks| ==> !fallbacks[i].Blank())
    && NoRepetition(Trimmed([primary] + fallbacks))
  }

  lemma TrimmedFirst(primary: Padded, fallbacks: seq<Padded>)
    ensures [primary.Strip()] + Trimmed(fallbacks) == Trimmed([primary] + fallbacks)
  {
  }

  /** A record is built exactly for such providers: nothing that is evaluated can keep it from being built. */
  lemma RecordIsBuiltExactlyWhen(e: Evaluation, primary: Padded, fallbacks: seq<Padded>)
    requires ValidEvaluation(e)
    ensures Evaluate(e, primary, fallbacks).Some? <==> RecordableProviders(primary, fallbacks)
  {
    var selected := [primary] + fallbacks;
    forall i | 0 <= i < |GATES|
      ensures ValidRequirement(CheckAt(e, selected, i))
    {
      CheckIsValid(e, selected, i);
    }
    TrimmedFirst(primary, fallbacks);
  }

  predicate NothingMissing(e: Evaluation) {
    forall i :: 0 <= i < |e.missing| ==> e.missing[i] == 0
  }

  predicate Silent(e: Evaluation, selected: seq<Padded>, gate: Gate)
    requires ValidEvaluation(e)
  {
    ReasonsAt(e, selected, gate) == []
  }

  lemma CheckPassesExactlyWhen(e: Evaluation, selected: seq<Padded>, i: nat)
    requires ValidEvaluation(e) && i < |GATES|
    ensures CheckAt(e, selected, i).passed <==> e.missing[i] == 0 && Silent(e, selected, GATES[i])
  {
  }

  /** Two of the gates have requirements of their own; the others only look for files. */
  lemma TheTwoGates(silent: Gate -> bool)
    requires silent(RepositoryEvidence)
    ensures (forall i :: 0 <= i < |GATES| ==> silent(GATES[i])) <==> silent(ProviderSelection) && silent(CapacityTargets)
  {
    assert GATES[5] == ProviderSelection && GATES[6] == CapacityTargets;
  }

  lemma AllChecksPass(e: Evaluation, selected: seq<Padded>)
    requires ValidEvaluation(e)
    ensures (forall i :: 0 <= i < |GATES| ==> CheckAt(e, selected, i).passed) <==>
      NothingMissing(e) && Silent(e, selected, ProviderSelection) && Silent(e, selected, CapacityTargets)
  {
    TheTwoGates(gate => Silent(e, selected, gate));
    forall i | 0 <= i < |GATES|
      ensures CheckAt(e, selected, i).passed <==> e.missing[i] == 0 && Silent(e, selected, GATES[i])
    {
      CheckPassesExactlyWhen(e, selected, i);
    }
  }

  /** The decision: ready exactly when no file is missing, the providers keep their budgets and capacity is met. */
  lemma ReadyExactlyWhen(e: Evaluation, primary: Padded, fallbacks: seq<Padded>)
    requires ValidEvaluation(e) && RecordableProviders(primary, fallbacks)
    ensures Evaluate(e, primary, fallbacks).Some?
    ensures ReadyToFreeze(Evaluate(e, primary, fallbacks).value) <==>
      NothingMissing(e) && ProvidersMet(e.report, e.budgets, [primary] + fallbacks) && CapacityMet(e.report, e.budget)
  {
    RecordIsBuiltExactlyWhen(e, primary, fallbacks);
    ReadyExactlyWhenSilent(e, primary, fallbacks);
    SilentExactlyWhenMet(e, [primary] + fallbacks);
  }

  lemma ReadyExactlyWhenSilent(e: Evaluation, primary: Padded, fallbacks: seq<Padded>)
    requires ValidEvaluation(e) && Evaluate(e, primary, fallbacks).Some?
    ensures ReadyToFreeze(Evaluate(e, primary, fallbacks).value) <==>
      NothingMissing(e) && Silent(e, [primary] + fallbacks, ProviderSelection)
      && Silent(e, [primary] + fallbacks, CapacityTargets)
  {
    RecordHasTheChecks(e, primary, fallbacks);
    AllChecksPass(e, [primary] + fallbacks);
  }

  lemma SilentExactlyWhenMet(e: Evaluation, selected: seq<Padded>)
    requires ValidEvaluation(e)
    ensures Silent(e, selected, ProviderSelection) <==> ProvidersMet(e.report, e.budgets, selected)
    ensures Silent(e, selected, CapacityTargets) <==> CapacityMet(e.report, e.budget)
  {
    ProvidersPassExactlyWhenMet(e.report, e.budgets, selected);
    CapacityPassesExactlyWhenMet(e.report, e.budget);
  }

  lemma RecordHasTheChecks(e: Evaluation, primary: Padded, fallbacks: seq<Padded>)
    requires ValidEvaluation(e) && Evaluate(e, primary, fallbacks).Some?
    ensures ReadyToFreeze(Evaluate(e, primary, fallbacks).value) <==>
            forall i :: 0 <= i < |GATES| ==> CheckAt(e, [primary] + fallbacks, i).passed
  {
    var checks := Evaluate(e, primary, fallbacks).value.checks;
    assert forall i :: 0 <= i < |GATES| ==> checks[i] == CheckAt(e, [primary] + fallbacks, i);
  }

  /** A repeated provider is a reason exactly when it is repeated as given, and then no record can carry the reason. */
  lemma RepeatedProviderIsNeverRecorded(r: Report, budgets: Budgets, primary: Padded, fallbacks: seq<Padded>)
    requires ValidReport(r)
    ensures DuplicateProviders in ProviderReasons(r, budgets, [primary] + fallbacks) <==>
            !NoRepetition([primary] + fallbacks)
    ensures !NoRepetition([primary] + fallbacks) ==> !RecordableProviders(primary, fallbacks)
  {
    var selected := [primary] + fallbacks;
    if !NoRepetition(selected) {
      var i, k :| 0 <= i < k < |selected| && selected[i] == selected[k];
      assert Trimmed(selected)[i] == Trimmed(selected)[k];
    }
  }

  /** A better report never loses the decision. */
  lemma ReadinessIsMonotone(e: Evaluation, better: Report, primary: Padded, fallbacks: seq<Padded>)
    requires ValidEvaluation(e) && ValidReport(better) && AtLeastAsGood(e.report, better)
    requires Evaluate(e, primary, fallbacks).Some? && ReadyToFreeze(Evaluate(e, primary, fallbacks).value)
    ensures Evaluate(e.(report := better), primary, fallbacks).Some?
    ensures ReadyToFreeze(Evaluate(e.(report := better), primary, fallbacks).value)
  {
    var f := e.(report := better);
    RecordIsBuiltExactlyWhen(e, primary, fallbacks);
    ReadyExactlyWhen(e, primary, fallbacks);
    ReadyExactlyWhen(f, primary, fallbacks);
    CapacityPassesExactlyWhenMet(e.report, e.budget);
    ProvidersPassExactlyWhenMet(e.report, e.budgets, [primary] + fallbacks);
    CapacityIsMonotone(e.report, better, e.budget);
    ProvidersAreMonotone(e.report, better, e.budgets, [primary] + fallbacks);
    CapacityPassesExactlyWhenMet(better, e.budget);
    ProvidersPassExactlyWhenMet(better, e.budgets, [primary] + fallbacks);
  }
}
