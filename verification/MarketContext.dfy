/** The labels that market context hands to the alerts, in the order of their names. */
module MarketContext {
  import opened CanonicalOrder

  datatype Trend = Up | Down | Ranging | Undetermined

  datatype Volatility = Low | Normal | High | Unknown

  datatype AssessmentStatus = Ready | InsufficientData | Stale

  datatype UnavailableReason = AssessmentExpired | AssessmentNotReady | BoundaryMismatch

  function TrendRank(t: Trend): int {
    match t
    case Ranging => 0
    case Down => 1
    case Up => 2
    case Undetermined => 3
  }

  function VolatilityRank(v: Volatility): int {
    match v
    case High => 0
    case Low => 1
    case Normal => 2
    case Unknown => 3
  }

  const UNAVAILABLE_REASONS := [AssessmentExpired, AssessmentNotReady, BoundaryMismatch]

  function UnavailableRank(r: UnavailableReason): int {
    match r
    case AssessmentExpired => 0
    case AssessmentNotReady => 1
    case BoundaryMismatch => 2
  }
}
