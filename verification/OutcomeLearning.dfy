/** The review of offline outcomes: which samples are too small, and which rates deserve a warning. */
module OutcomeLearning {
  import opened Prelude
  import opened Rounding

  datatype Stage =
    | StrategyEvaluation
    | CandidateRanking
    | RiskGate
    | PortfolioSimulation

  datatype Code =
    | AlertSampleInsufficient
    | CandidateSampleInsufficient
    | DecisionSampleInsufficient
    | PositionSampleInsufficient
    | FalsePositiveElevated
    | DriftElevated
    | NoPositionElevated
    | NonAcceptanceElevated
    | LossRateElevated
    | NetPnlNegative
    | EvidenceReady

  datatype Subject =
    | AlertOutcomes
    | CandidateJournals
    | DecisionEvaluations
    | ClosedPositions
    | FalsePositiveRate
    | DriftRate
    | NoPositionRate
    | OfStage(stage: Stage)
    | LossRate
    | NetPnl
    | CrossDomain

  datatype Policy = Policy(
    minAlerts: int, minCandidates: int, minDecisions: int, minStage: int, minPositions: int,
    falsePositive: real, drift: real, noPosition: real, nonAcceptance: real, loss: real)

  datatype StageReview = StageReview(stage: Stage, accepted: nat, rejected: nat, deferred: nat, unavailable: nat)
  {
    function Total(): nat {
      accepted + rejected + deferred + unavailable
    }

    function NotAccepted(): nat {
      rejected + deferred + unavailable
    }
  }

  datatype Snapshot = Snapshot(
    alerts: nat, confirmed: nat, neutral: nat, falsePositive: nat, drifted: nat,
    candidates: nat, noPosition: nat, closedCandidates: nat,
    decisions: nat, stages: seq<StageReview>,
    closed: nat, profitable: nat, losing: nat, breakeven: nat, netPnl: real)

  datatype Signal = Signal(code: Code, warning: bool, subject: Subject, samples: int,
                           observed: Option<real>, threshold: Option<real>)

  datatype Readiness = InsufficientData | Observational | ReviewReady

  /** A rate in units of 1e-8. */
  function Rate(numerator: int, denominator: int): int {
    if denominator <= 0 then 0 else Quantized(numerator as real / denominator as real)
  }

  function RateValue(numerator: int, denominator: int): real {
    Rate(numerator, denominator) as real / UNITS
  }

  // ---- What the review should say ----

  datatype Requirement = Requirement(subject: Subject, observed: int, minimum: int, code: Code)

  function Requirements(p: Policy, s: Snapshot): seq<Requirement> {
    [Requirement(AlertOutcomes, s.alerts, p.minAlerts, AlertSampleInsufficient),
     Requirement(CandidateJournals, s.candidates, p.minCandidates, CandidateSampleInsufficient),
     Requirement(DecisionEvaluations, s.decisions, p.minDecisions, DecisionSampleInsufficient),
     Requirement(ClosedPositions, s.closed, p.minPositions, PositionSampleInsufficient)]
  }

  function GapSignal(r: Requirement): Signal {
    Signal(r.code, false, r.subject, r.observed, Some(r.observed as real), Some(r.minimum as real))
  }

  /** Each rate with its sample, the sample it needs, and the rate from which it deserves a warning. */
  datatype Check = Check(code: Code, subject: Subject, part: nat, sample: nat, minimum: int, threshold: real)

  predicate Elevated(c: Check) {
    c.minimum <= c.sample && c.threshold <= RateValue(c.part, c.sample)
  }

  function Warning(c: Check): Signal {
    Signal(c.code, true, c.subject, c.sample, Some(RateValue(c.part, c.sample)), Some(c.threshold))
  }

  function StageCheck(p: Policy, r: StageReview): Check {
    Check(NonAcceptanceElevated, OfStage(r.stage), r.NotAccepted(), r.Total(), p.minStage, p.nonAcceptance)
  }

  function StageChecks(p: Policy, stages: seq<StageReview>): (c: seq<Check>)
    ensures |c| == |stages| && forall i :: 0 <= i < |c| ==> c[i] == StageCheck(p, stages[i])
  {
    if stages == [] then [] else StageChecks(p, stages[..|stages| - 1]) + [StageCheck(p, stages[|stages| - 1])]
  }

  function EarlyChecks(p: Policy, s: Snapshot): seq<Check> {
    [Check(FalsePositiveElevated, FalsePositiveRate, s.falsePositive, s.alerts, p.minAlerts, p.falsePositive),
     Check(DriftElevated, DriftRate, s.drifted, s.alerts, p.minAlerts, p.drift),
     Check(NoPositionElevated, NoPositionRate, s.noPosition, s.candidates, p.minCandidates, p.noPosition)]
  }

  function LossCheck(p: Policy, s: Snapshot): Check {
    Check(LossRateElevated, LossRate, s.losing, s.closed, p.minPositions, p.loss)
  }

  function Checks(p: Policy, s: Snapshot): seq<Check> {
    EarlyChecks(p, s) + StageChecks(p, s.stages) + [LossCheck(p, s)]
  }

  function Gaps(requirements: seq<Requirement>): (gaps: seq<Requirement>) {
    if requirements == [] then []
    else
      var last := requirements[|requirements| - 1];
      Gaps(requirements[..|requirements| - 1]) + if last.observed < last.minimum then [last] else []
  }

  function Subjects(gaps: seq<Requirement>): (s: seq<Subject>)
    ensures |s| == |gaps| && forall i :: 0 <= i < |s| ==> s[i] == gaps[i].subject
  {
    seq(|gaps|, i requires 0 <= i < |gaps| => gaps[i].subject)
  }

  function GapSignals(gaps: seq<Requirement>): (s: seq<Signal>)
    ensures |s| == |gaps| && forall i :: 0 <= i < |s| ==> s[i] == GapSignal(gaps[i])
  {
    seq(|gaps|, i requires 0 <= i < |gaps| => GapSignal(gaps[i]))
  }

  function Warnings(checks: seq<Check>): (w: seq<Signal>) {
    if checks == [] then []
    else
      var last := checks[|checks| - 1];
      Warnings(checks[..|checks| - 1]) + if Elevated(last) then [Warning(last)] else []
  }

  function PnlWarning(p: Policy, s: Snapshot): seq<Signal> {
    if p.minPositions <= s.closed && s.netPnl < 0.0
    then [Signal(NetPnlNegative, true, NetPnl, s.closed, Some(s.netPnl), Some(0.0))] else []
  }

  function CoreSamples(s: Snapshot): int {
    s.alerts + s.candidates + s.decisions + s.closed
  }

  function ReadySignal(p: Policy, s: Snapshot): seq<Signal> {
    if Gaps(Requirements(p, s)) == [] then [Signal(EvidenceReady, false, CrossDomain, CoreSamples(s), None, None)] else []
  }

  function Signals(p: Policy, s: Snapshot): seq<Signal> {
    GapSignals(Gaps(Requirements(p, s))) + Warnings(Checks(p, s)) + PnlWarning(p, s) + ReadySignal(p, s)
  }

  // ---- The review ----

  lemma {:induction false} WarningsConcat(a: seq<Check>, b: seq<Check>)
    ensures Warnings(a + b) == Warnings(a) + Warnings(b)
  {
    if b == [] {
      assert a + b == a;
    } else {
      var init := b[..|b| - 1];
      WarningsConcat(a, init);
      assert (a + b)[..|a + b| - 1] == a + init;
    }
  }

  function WarningOf(c: Check): seq<Signal> {
    if Elevated(c) then [Warning(c)] else []
  }

  lemma WarningOfOne(c: Check)
    ensures Warnings([c]) == WarningOf(c)
  {
    assert [c][..0] == [];
  }

  lemma EarlyWarnings(p: Policy, s: Snapshot)
    ensures var c := EarlyChecks(p, s);
      Warnings(c) == WarningOf(c[0]) + WarningOf(c[1]) + WarningOf(c[2])
  {
    var c := EarlyChecks(p, s);
    assert c == [c[0]] + [c[1]] + [c[2]];
    WarningsConcat([c[0]], [c[1]]);
    WarningsConcat([c[0]] + [c[1]], [c[2]]);
    WarningOfOne(c[0]);
    WarningOfOne(c[1]);
    WarningOfOne(c[2]);
  }

  lemma NextStage(p: Policy, stages: seq<StageReview>, i: nat)
    requires i < |stages|
    ensures Warnings(StageChecks(p, stages[..i + 1])) ==
            Warnings(StageChecks(p, stages[..i])) + WarningOf(StageCheck(p, stages[i]))
  {
    var checks := StageChecks(p, stages[..i]);
    assert stages[..i + 1][..i] == stages[..i];
    WarningsConcat(checks, [StageCheck(p, stages[i])]);
    WarningOfOne(StageCheck(p, stages[i]));
  }

  lemma SignalsInParts(p: Policy, s: Snapshot)
    ensures Signals(p, s) == GapSignals(Gaps(Requirements(p, s))) + Warnings(EarlyChecks(p, s))
      + Warnings(StageChecks(p, s.stages)) + WarningOf(LossCheck(p, s)) + PnlWarning(p, s) + ReadySignal(p, s)
  {
    WarningsConcat(EarlyChecks(p, s), StageChecks(p, s.stages));
    WarningsConcat(EarlyChecks(p, s) + StageChecks(p, s.stages), [LossCheck(p, s)]);
    WarningOfOne(LossCheck(p, s));
  }

  lemma NextGap(requirements: seq<Requirement>, i: nat)
    requires i < |requirements|
    ensures Gaps(requirements[..i + 1]) == Gaps(requirements[..i]) +
            if requirements[i].observed < requirements[i].minimum then [requirements[i]] else []
  {
    assert requirements[..i + 1][..i] == requirements[..i];
  }

  /** Appends the warning of one check, if its rate is elevated. */
  method AppendRateWarning(signals: seq<Signal>, code: Code, subject: Subject, sample: int, observed: real, threshold: real)
    returns (more: seq<Signal>)
    ensures more == signals +
      if threshold <= observed then [Signal(code, true, subject, sample, Some(observed), Some(threshold))] else []
  {
    more := signals;
    if threshold <= observed {
      more := more + [Signal(code, true, subject, sample, Some(observed), Some(threshold))];
    }
  }

  method DeriveReview(p: Policy, s: Snapshot)
    returns (readiness: Readiness, gaps: seq<Subject>, signals: seq<Signal>)
    ensures gaps == Subjects(Gaps(Requirements(p, s))) && signals == Signals(p, s)
    ensures readiness == ReadinessOf(p, s)
  {
    gaps, signals := AppendGaps(Requirements(p, s));
    signals := AppendEarlyWarnings(signals, p, s);
    signals := AppendStageWarnings(signals, p, s.stages);
    signals := AppendPositionWarnings(signals, p, s);
    SignalsInParts(p, s);
    if gaps == [] {
      readiness := ReviewReady;
      signals := signals + [Signal(EvidenceReady, false, CrossDomain, CoreSamples(s), None, None)];
    } else if s.alerts != 0 || s.candidates != 0 || s.decisions != 0 || s.closed != 0 {
      readiness := Observational;
    } else {
      readiness := InsufficientData;
    }
  }

  function ReadinessOf(p: Policy, s: Snapshot): Readiness {
    if Gaps(Requirements(p, s)) == [] then ReviewReady else if CoreSamples(s) != 0 then Observational else InsufficientData
  }

  method AppendGaps(requirements: seq<Requirement>) returns (gaps: seq<Subject>, signals: seq<Signal>)
    ensures gaps == Subjects(Gaps(requirements)) && signals == GapSignals(Gaps(requirements))
  {
    gaps, signals := [], [];
    for i := 0 to |requirements|
      invariant gaps == Subjects(Gaps(requirements[..i])) && signals == GapSignals(Gaps(requirements[..i]))
    {
      var r := requirements[i];
      NextGap(requirements, i);
      if r.observed < r.minimum {
        gaps := gaps + [r.subject];
        signals := signals + [Signal(r.code, false, r.subject, r.observed, Some(r.observed as real), Some(r.minimum as real))];
      }
    }
    assert requirements[..|requirements|] == requirements;
  }

  method AppendEarlyWarnings(signals: seq<Signal>, p: Policy, s: Snapshot) returns (more: seq<Signal>)
    ensures more == signals + Warnings(EarlyChecks(p, s))
  {
    EarlyWarnings(p, s);
    more := signals;
    if p.minAlerts <= s.alerts {
      more := AppendRateWarning(more, FalsePositiveElevated, FalsePositiveRate, s.alerts,
                                RateValue(s.falsePositive, s.alerts), p.falsePositive);
      more := AppendRateWarning(more, DriftElevated, DriftRate, s.alerts, RateValue(s.drifted, s.alerts), p.drift);
    }
    if p.minCandidates <= s.candidates {
      more := AppendRateWarning(more, NoPositionElevated, NoPositionRate, s.candidates,
                                RateValue(s.noPosition, s.candidates), p.noPosition);
    }
  }

  method AppendStageWarnings(signals: seq<Signal>, p: Policy, stages: seq<StageReview>) returns (more: seq<Signal>)
    ensures more == signals + Warnings(StageChecks(p, stages))
  {
    more := signals;
    for i := 0 to |stages|
      invariant more == signals + Warnings(StageChecks(p, stages[..i]))
    {
      var stage := stages[i];
      NextStage(p, stages, i);
      if p.minStage <= stage.Total() {
        more := AppendRateWarning(more, NonAcceptanceElevated, OfStage(stage.stage), stage.Total(),
                                  RateValue(stage.NotAccepted(), stage.Total()), p.nonAcceptance);
      }
    }
    assert stages[..|stages|] == stages;
  }

  method AppendPositionWarnings(signals: seq<Signal>, p: Policy, s: Snapshot) returns (more: seq<Signal>)
    ensures more == signals + WarningOf(LossCheck(p, s)) + PnlWarning(p, s)
  {
    more := signals;
    if p.minPositions <= s.closed {
      more := AppendRateWarning(more, LossRateElevated, LossRate, s.closed, RateValue(s.losing, s.closed), p.loss);
      if s.netPnl < 0.0 {
        more := more + [Signal(NetPnlNegative, true, NetPnl, s.closed, Some(s.netPnl), Some(0.0))];
      }
    }
  }

  // ---- Results ----

  lemma {:induction false} GapsAre(requirements: seq<Requirement>, r: Requirement)
    ensures r in Gaps(requirements) <==> r in requirements && r.observed < r.minimum
  {
    if requirements != [] {
      var init, last := requirements[..|requirements| - 1], requirements[|requirements| - 1];
      GapsAre(init, r);
      assert requirements == init + [last];
    }
  }

  lemma {:induction false} WarningsAre(checks: seq<Check>, x: Signal)
    ensures x in Warnings(checks) <==> exists c :: c in checks && Elevated(c) && x == Warning(c)
  {
    if checks != [] {
      var init, last := checks[..|checks| - 1], checks[|checks| - 1];
      WarningsAre(init, x);
      assert checks == init + [last];
      if x in Warnings(init) {
        var c :| c in init && Elevated(c) && x == Warning(c);
        assert c in checks;
      }
    }
  }

  lemma GapSignalsAre(gaps: seq<Requirement>, x: Signal)
    ensures x in GapSignals(gaps) <==> exists r :: r in gaps && x == GapSignal(r)
  {
    if x in GapSignals(gaps) {
      var i :| 0 <= i < |gaps| && GapSignals(gaps)[i] == x;
      assert gaps[i] in gaps;
    }
    if r :| r in gaps && x == GapSignal(r) {
      var i :| 0 <= i < |gaps| && gaps[i] == r;
      assert GapSignals(gaps)[i] == x;
    }
  }

  /** Where a signal comes from, in the lists that the review goes through. */
  ghost predicate Sourced(p: Policy, s: Snapshot, x: Signal) {
    || (exists r :: r in Requirements(p, s) && r.observed < r.minimum && x == GapSignal(r))
    || (exists c :: c in Checks(p, s) && Elevated(c) && x == Warning(c))
    || x in PnlWarning(p, s)
    || x in ReadySignal(p, s)
  }

  lemma SignalsHaveSources(p: Policy, s: Snapshot, x: Signal)
    ensures x in Signals(p, s) <==> Sourced(p, s, x)
  {
    var gaps := Gaps(Requirements(p, s));
    GapSignalsAre(gaps, x);
    WarningsAre(Checks(p, s), x);
    forall r: Requirement
      ensures r in gaps <==> r in Requirements(p, s) && r.observed < r.minimum
    {
      GapsAre(Requirements(p, s), r);
    }
  }

  /** A sample that is too small, and the signal of it. */
  predicate Small(x: Signal, subject: Subject, samples: int, minimum: int) {
    samples < minimum && x == Signal(x.code, false, subject, samples, Some(samples as real), Some(minimum as real))
  }

  /** A rate of a large enough sample that is at or above its threshold, and the warning of it. */
  predicate High(x: Signal, subject: Subject, part: int, samples: int, minimum: int, threshold: real) {
    && minimum <= samples && threshold <= RateValue(part, samples)
    && x == Signal(x.code, true, subject, samples, Some(RateValue(part, samples)), Some(threshold))
  }

  predicate HighStage(x: Signal, p: Policy, r: StageReview) {
    High(x, OfStage(r.stage), r.rejected + r.deferred + r.unavailable,
         r.accepted + r.rejected + r.deferred + r.unavailable, p.minStage, p.nonAcceptance)
  }

  /** Which signals the samples justify, with the figures that they carry. */
  predicate Justified(p: Policy, s: Snapshot, x: Signal) {
    match x.code
    case AlertSampleInsufficient => Small(x, AlertOutcomes, s.alerts, p.minAlerts)
    case CandidateSampleInsufficient => Small(x, CandidateJournals, s.candidates, p.minCandidates)
    case DecisionSampleInsufficient => Small(x, DecisionEvaluations, s.decisions, p.minDecisions)
    case PositionSampleInsufficient => Small(x, ClosedPositions, s.closed, p.minPositions)
    case FalsePositiveElevated => High(x, FalsePositiveRate, s.falsePositive, s.alerts, p.minAlerts, p.falsePositive)
    case DriftElevated => High(x, DriftRate, s.drifted, s.alerts, p.minAlerts, p.drift)
    case NoPositionElevated => High(x, NoPositionRate, s.noPosition, s.candidates, p.minCandidates, p.noPosition)
    case NonAcceptanceElevated => exists i :: 0 <= i < |s.stages| && HighStage(x, p, s.stages[i])
    case LossRateElevated => High(x, LossRate, s.losing, s.closed, p.minPositions, p.loss)
    case NetPnlNegative =>
      && p.minPositions <= s.closed && s.netPnl < 0.0
      && x == Signal(NetPnlNegative, true, NetPnl, s.closed, Some(s.netPnl), Some(0.0))
    case EvidenceReady =>
      && p.minAlerts <= s.alerts && p.minCandidates <= s.candidates && p.minDecisions <= s.decisions
      && p.minPositions <= s.closed
      && x == Signal(EvidenceReady, false, CrossDomain, s.alerts + s.candidates + s.decisions + s.closed, None, None)
  }

  lemma RequirementIsJustified(p: Policy, s: Snapshot, i: nat)
    requires i < 4 && Requirements(p, s)[i].observed < Requirements(p, s)[i].minimum
    ensures Justified(p, s, GapSignal(Requirements(p, s)[i]))
  {
  }

  lemma CheckIsJustified(p: Policy, s: Snapshot, i: nat)
    requires i < |Checks(p, s)| && Elevated(Checks(p, s)[i])
    ensures Justified(p, s, Warning(Checks(p, s)[i]))
  {
    if 3 <= i < 3 + |s.stages| {
      assert Checks(p, s)[i] == StageCheck(p, s.stages[i - 3]);
      assert HighStage(Warning(Checks(p, s)[i]), p, s.stages[i - 3]);
    }
  }

  lemma SourcedIsJustified(p: Policy, s: Snapshot, x: Signal)
    requires Sourced(p, s, x)
    ensures Justified(p, s, x)
  {
    NoGapExactlyWhen(p, s);
    if r :| r in Requirements(p, s) && r.observed < r.minimum && x == GapSignal(r) {
      var i :| 0 <= i < 4 && Requirements(p, s)[i] == r;
      RequirementIsJustified(p, s, i);
    } else if c :| c in Checks(p, s) && Elevated(c) && x == Warning(c) {
      var i :| 0 <= i < |Checks(p, s)| && Checks(p, s)[i] == c;
      CheckIsJustified(p, s, i);
    }
  }

  /** The check at place `i` is a source of its warning. */
  lemma CheckIsSource(p: Policy, s: Snapshot, i: nat, x: Signal)
    requires i < |Checks(p, s)| && Elevated(Checks(p, s)[i]) && x == Warning(Checks(p, s)[i])
    ensures Sourced(p, s, x)
  {
    assert Checks(p, s)[i] in Checks(p, s);
  }

  lemma RequirementIsSource(p: Policy, s: Snapshot, i: nat, x: Signal)
    requires i < 4 && Requirements(p, s)[i].observed < Requirements(p, s)[i].minimum
    requires x == GapSignal(Requirements(p, s)[i])
    ensures Sourced(p, s, x)
  {
    assert Requirements(p, s)[i] in Requirements(p, s);
  }

  lemma JustifiedIsSourced(p: Policy, s: Snapshot, x: Signal)
    requires Justified(p, s, x)
    ensures Sourced(p, s, x)
  {
    var n := |s.stages|;
    match x.code {
      case AlertSampleInsufficient => RequirementIsSource(p, s, 0, x);
      case CandidateSampleInsufficient => RequirementIsSource(p, s, 1, x);
      case DecisionSampleInsufficient => RequirementIsSource(p, s, 2, x);
      case PositionSampleInsufficient => RequirementIsSource(p, s, 3, x);
      case FalsePositiveElevated => CheckIsSource(p, s, 0, x);
      case DriftElevated => CheckIsSource(p, s, 1, x);
      case NoPositionElevated => CheckIsSource(p, s, 2, x);
      case NonAcceptanceElevated =>
        var i :| 0 <= i < n && HighStage(x, p, s.stages[i]);
        assert Checks(p, s)[3 + i] == StageCheck(p, s.stages[i]);
        CheckIsSource(p, s, 3 + i, x);
      case LossRateElevated =>
        assert Checks(p, s)[3 + n] == LossCheck(p, s);
        CheckIsSource(p, s, 3 + n, x);
      case NetPnlNegative => assert x in PnlWarning(p, s);
      case EvidenceReady =>
        NoGapExactlyWhen(p, s);
        assert x in ReadySignal(p, s);
    }
  }

  /** The review carries exactly the signals that the samples justify, with the right figures. */
  lemma SignalsAreTheJustifiedOnes(p: Policy, s: Snapshot, x: Signal)
    ensures x in Signals(p, s) <==> Justified(p, s, x)
  {
    SignalsHaveSources(p, s, x);
    if Sourced(p, s, x) {
      SourcedIsJustified(p, s, x);
    }
    if Justified(p, s, x) {
      JustifiedIsSourced(p, s, x);
    }
  }

  ghost predicate Signalled(p: Policy, s: Snapshot, code: Code) {
    exists x :: x in Signals(p, s) && x.code == code
  }

  /** Whether the samples deserve a signal of a given code. */
  predicate Deserved(p: Policy, s: Snapshot, code: Code) {
    match code
    case AlertSampleInsufficient => s.alerts < p.minAlerts
    case CandidateSampleInsufficient => s.candidates < p.minCandidates
    case DecisionSampleInsufficient => s.decisions < p.minDecisions
    case PositionSampleInsufficient => s.closed < p.minPositions
    case FalsePositiveElevated => p.minAlerts <= s.alerts && p.falsePositive <= RateValue(s.falsePositive, s.alerts)
    case DriftElevated => p.minAlerts <= s.alerts && p.drift <= RateValue(s.drifted, s.alerts)
    case NoPositionElevated => p.minCandidates <= s.candidates && p.noPosition <= RateValue(s.noPosition, s.candidates)
    case NonAcceptanceElevated => exists i :: 0 <= i < |s.stages| && RarelyAccepts(p, s.stages[i])
    case LossRateElevated => p.minPositions <= s.closed && p.loss <= RateValue(s.losing, s.closed)
    case NetPnlNegative => p.minPositions <= s.closed && s.netPnl < 0.0
    case EvidenceReady =>
      && p.minAlerts <= s.alerts && p.minCandidates <= s.candidates && p.minDecisions <= s.decisions
      && p.minPositions <= s.closed
  }

  predicate RarelyAccepts(p: Policy, r: StageReview) {
    var refused := r.rejected + r.deferred + r.unavailable;
    p.minStage <= r.accepted + refused && p.nonAcceptance <= RateValue(refused, r.accepted + refused)
  }

  lemma JustifiedIsDeserved(p: Policy, s: Snapshot, x: Signal)
    requires Justified(p, s, x)
    ensures Deserved(p, s, x.code)
  {
    if x.code.NonAcceptanceElevated? {
      var i :| 0 <= i < |s.stages| && HighStage(x, p, s.stages[i]);
      assert RarelyAccepts(p, s.stages[i]);
    }
  }

  lemma DeservedIsJustified(p: Policy, s: Snapshot, code: Code) returns (x: Signal)
    requires Deserved(p, s, code)
    ensures Justified(p, s, x) && x.code == code
  {
    match code {
      case AlertSampleInsufficient => x := GapSignal(Requirements(p, s)[0]);
      case CandidateSampleInsufficient => x := GapSignal(Requirements(p, s)[1]);
      case DecisionSampleInsufficient => x := GapSignal(Requirements(p, s)[2]);
      case PositionSampleInsufficient => x := GapSignal(Requirements(p, s)[3]);
      case FalsePositiveElevated => x := Warning(EarlyChecks(p, s)[0]);
      case DriftElevated => x := Warning(EarlyChecks(p, s)[1]);
      case NoPositionElevated => x := Warning(EarlyChecks(p, s)[2]);
      case NonAcceptanceElevated =>
        var i :| 0 <= i < |s.stages| && RarelyAccepts(p, s.stages[i]);
        x := Warning(StageCheck(p, s.stages[i]));
        assert HighStage(x, p, s.stages[i]);
      case LossRateElevated => x := Warning(LossCheck(p, s));
      case NetPnlNegative => x := PnlWarning(p, s)[0];
      case EvidenceReady =>
        x := Signal(EvidenceReady, false, CrossDomain, s.alerts + s.candidates + s.decisions + s.closed, None, None);
    }
  }

  /** A code appears in the review exactly when the samples deserve it. */
  lemma CodeAppearsExactlyWhen(p: Policy, s: Snapshot, code: Code)
    ensures Signalled(p, s, code) <==> Deserved(p, s, code)
  {
    if Signalled(p, s, code) {
      var x :| x in Signals(p, s) && x.code == code;
      SignalsAreTheJustifiedOnes(p, s, x);
      JustifiedIsDeserved(p, s, x);
    }
    if Deserved(p, s, code) {
      var x := DeservedIsJustified(p, s, code);
      SignalsAreTheJustifiedOnes(p, s, x);
    }
  }

  lemma NoGapExactlyWhen(p: Policy, s: Snapshot)
    ensures Gaps(Requirements(p, s)) == [] <==>
      p.minAlerts <= s.alerts && p.minCandidates <= s.candidates && p.minDecisions <= s.decisions && p.minPositions <= s.closed
  {
    var requirements := Requirements(p, s);
    var gaps := Gaps(requirements);
    forall i | 0 <= i < 4
      ensures requirements[i] in gaps <==> requirements[i].observed < requirements[i].minimum
    {
      GapsAre(requirements, requirements[i]);
    }
    if gaps != [] {
      GapsAre(requirements, gaps[0]);
      var i :| 0 <= i < 4 && gaps[0] == requirements[i];
    }
    assert requirements[0] in gaps <==> s.alerts < p.minAlerts;
    assert requirements[1] in gaps <==> s.candidates < p.minCandidates;
    assert requirements[2] in gaps <==> s.decisions < p.minDecisions;
    assert requirements[3] in gaps <==> s.closed < p.minPositions;
  }

  /** Ready for review exactly when no sample is too small, and without data exactly when there is none. */
  lemma ReadyExactlyWhenEnough(p: Policy, s: Snapshot)
    requires 1 <= p.minAlerts
    ensures ReadinessOf(p, s).ReviewReady? <==>
      p.minAlerts <= s.alerts && p.minCandidates <= s.candidates && p.minDecisions <= s.decisions && p.minPositions <= s.closed
    ensures ReadinessOf(p, s).InsufficientData? <==> s.alerts == s.candidates == s.decisions == s.closed == 0
  {
    NoGapExactlyWhen(p, s);
  }

  /** Where the rounding puts a threshold: the first whole unit that is not below it. */
  function Ceiling(x: real): (n: int)
    ensures n as real - 1.0 < x <= n as real
  {
    -((-x).Floor)
  }

  /** A rate deserves its warning exactly when the unrounded rate rounds up to the threshold. */
  lemma ElevatedExactlyWhen(c: Check)
    requires 1 <= c.minimum
    ensures Elevated(c) <==>
      c.minimum <= c.sample && Reaches(c.part as real / c.sample as real * UNITS, Ceiling(c.threshold * UNITS))
  {
    if c.minimum <= c.sample {
      var exact, units := c.part as real / c.sample as real * UNITS, Ceiling(c.threshold * UNITS);
      NearestReaches(exact, units);
      assert Rate(c.part, c.sample) == Nearest(exact);
      assert c.threshold <= RateValue(c.part, c.sample) <==> units <= Nearest(exact);
    }
  }

  predicate OnGrid(threshold: real) {
    (threshold * UNITS).Floor as real == threshold * UNITS
  }

  /**
   * Rounding never adds more than half a unit, and for a threshold on the grid of 1e-8 it never hides a rate at or
   * above the threshold.
   */
  lemma WarningIsWithinHalfAUnit(c: Check)
    requires 1 <= c.minimum
    ensures Elevated(c) ==> c.threshold * UNITS - 0.5 <= c.part as real / c.sample as real * UNITS
    ensures OnGrid(c.threshold) && c.minimum <= c.sample && c.threshold <= c.part as real / c.sample as real ==> Elevated(c)
  {
    ElevatedExactlyWhen(c);
  }

  /** The exact rate of a sufficient sample is at or above the threshold. */
  predicate Due(c: Check) {
    0 < c.sample && c.minimum <= c.sample && c.threshold <= c.part as real / c.sample as real
  }

  ghost predicate NeverMissed(threshold: real, minimum: int) {
    forall c: Check :: c.minimum == minimum && c.threshold == threshold && Due(c) ==> Elevated(c)
  }

  lemma DueIsCaught(c: Check)
    requires 1 <= c.minimum && Due(c) && Reaches(c.threshold * UNITS, Ceiling(c.threshold * UNITS))
    ensures Elevated(c)
  {
    ElevatedExactlyWhen(c);
    assert c.threshold * UNITS <= c.part as real / c.sample as real * UNITS;
  }

  lemma EqualRateIsMissed(threshold: real, part: nat, sample: nat, minimum: int) returns (c: Check)
    requires 0 < sample && threshold == part as real / sample as real && 1 <= minimum
    requires !Reaches(threshold * UNITS, Ceiling(threshold * UNITS))
    ensures c.minimum == minimum && c.threshold == threshold && Due(c) && !Elevated(c)
  {
    c := Check(LossRateElevated, LossRate, part * minimum, sample * minimum, minimum, threshold);
    assert sample * minimum >= minimum;
    SameRatio(part, sample, minimum);
    ElevatedExactlyWhen(c);
  }

  /**
   * Off the grid a rate at or above the threshold can be missed.  That happens for some sample exactly when the
   * threshold itself rounds down; the rate that equals the threshold is then one that is missed.
   */
  lemma NeverMissedExactlyWhen(threshold: real, part: nat, sample: nat, minimum: int)
    requires 0 < sample && threshold == part as real / sample as real && 1 <= minimum
    ensures Reaches(threshold * UNITS, Ceiling(threshold * UNITS)) <==> NeverMissed(threshold, minimum)
  {
    if Reaches(threshold * UNITS, Ceiling(threshold * UNITS)) {
      forall c: Check | c.minimum == minimum && c.threshold == threshold && Due(c)
        ensures Elevated(c)
      {
        DueIsCaught(c);
      }
    } else {
      var c := EqualRateIsMissed(threshold, part, sample, minimum);
    }
  }

  lemma SameRatio(part: nat, sample: nat, k: int)
    requires 0 < sample && 0 < k
    ensures (part * k) as real / (sample * k) as real == part as real / sample as real
  {
    var x := part as real / sample as real;
    assert x * (sample * k) as real == (part * k) as real;
  }

  /** Raising thresholds or required samples never adds a warning about a rate. */
  lemma StricterPolicyWarnsLess(p: Policy, q: Policy, s: Snapshot, x: Signal)
    requires Stricter(p, q) && x in Warnings(Checks(q, s))
    ensures exists y :: y in Warnings(Checks(p, s)) && y.code == x.code && y.subject == x.subject
  {
    var above, below := Checks(q, s), Checks(p, s);
    WarningsAre(above, x);
    var c :| c in above && Elevated(c) && x == Warning(c);
    var i :| 0 <= i < |above| && above[i] == c;
    ChecksLineUp(p, q, s, i);
    LaxerWarns(below[i], c);
    WarningsAre(below, Warning(below[i]));
    assert below[i] in below;
  }

  lemma LaxerWarns(a: Check, b: Check)
    requires a == b.(minimum := a.minimum, threshold := a.threshold)
    requires a.minimum <= b.minimum && a.threshold <= b.threshold && Elevated(b)
    ensures Elevated(a) && Warning(a).code == Warning(b).code && Warning(a).subject == Warning(b).subject
  {
  }

  /** The same rate stands at the same place under both policies, with laxer demands under the laxer one. */
  lemma ChecksLineUp(p: Policy, q: Policy, s: Snapshot, i: nat)
    requires Stricter(p, q) && i < |Checks(q, s)|
    ensures i < |Checks(p, s)|
    ensures var a, b := Checks(p, s)[i], Checks(q, s)[i];
      && a == b.(minimum := a.minimum, threshold := a.threshold)
      && a.minimum <= b.minimum && a.threshold <= b.threshold
  {
  }

  predicate Stricter(p: Policy, q: Policy) {
    && p.minAlerts <= q.minAlerts && p.minCandidates <= q.minCandidates && p.minStage <= q.minStage
    && p.minPositions <= q.minPositions
    && p.falsePositive <= q.falsePositive && p.drift <= q.drift && p.noPosition <= q.noPosition
    && p.nonAcceptance <= q.nonAcceptance && p.loss <= q.loss
  }

  /** The aggregates of a consistent snapshot give proper rates. */
  lemma RatesAreFractions(p: Policy, s: Snapshot, i: nat)
    requires i < |Checks(p, s)| && s.drifted <= s.alerts == s.confirmed + s.neutral + s.falsePositive
    requires s.candidates == s.noPosition + s.closedCandidates && s.closed == s.profitable + s.losing + s.breakeven
    ensures 0.0 <= RateValue(Checks(p, s)[i].part, Checks(p, s)[i].sample) <= 1.0
  {
    var c := Checks(p, s)[i];
    assert c.part <= c.sample;
    FractionIsRounded(c.part, c.sample);
  }

  lemma FractionIsRounded(part: nat, sample: nat)
    requires part <= sample
    ensures 0.0 <= RateValue(part, sample) <= 1.0
  {
    if 0 < sample {
      UnitInterval(part as real, sample as real);
      RoundedUnitInterval(part as real / sample as real);
    }
  }

  lemma UnitInterval(part: real, sample: real)
    requires 0.0 <= part <= sample && 0.0 < sample
    ensures 0.0 <= part / sample <= 1.0
  {
  }

  lemma RoundedUnitInterval(x: real)
    requires 0.0 <= x <= 1.0
    ensures 0 <= Quantized(x) <= 100_000_000
  {
    NearestIsMonotone(0.0, x * UNITS);
    NearestIsMonotone(x * UNITS, UNITS);
    NearestOfWhole(0);
    NearestOfWhole(100_000_000);
  }
}
