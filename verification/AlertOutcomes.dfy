/** What an alert turned out to be worth: rounded returns, excursions and a classification. */
module AlertOutcomes {
  import opened Prelude
  import opened MarketContext
  import opened Rounding

  /** Prices are whole multiples of 1e-10 with at most 28 digits. */
  type Price = int

  const PRICE_LIMIT: int := 10_000_000_000_000_000_000_000_000_000

  /** Returns count units of 1e-8 and have at most 18 digits. */
  const METRIC_LIMIT: int := 1_000_000_000_000_000_000

  /** 0.005, the classification threshold. */
  const THRESHOLD: int := 500_000

  datatype Classification = Confirmed | Neutral | FalsePositive

  /** The part of a simulation record that an outcome depends on. */
  datatype Watch = Watch(expected: Trend, startedAt: Instant, endsAt: Instant)

  datatype Prices = Prices(reference: Price, end: Price, high: Price, low: Price)
  {
    predicate Positive() {
      0 < reference && 0 < end && 0 < high && 0 < low
    }
  }

  datatype Outcome = Outcome(
    expected: Trend,
    observed: Trend,
    prices: Prices,
    rawReturn: int,
    directionalReturn: int,
    favorable: int,
    adverse: int,
    classification: Classification,
    falsePositive: bool,
    drifted: bool,
    threshold: int,
    observedAt: Instant,
    recordedAt: Instant,
    recordedBy: Padded)

  datatype Refusal =
    | ObservedTooEarly
    | RecordedTooEarly
    | PriceNotPositive
    | HighTooLow
    | LowTooHigh
    | NoActor
    | FieldRefused

  datatype Result = Ok(outcome: Outcome) | Err(refusal: Refusal)

  predicate InField(metric: int) {
    -METRIC_LIMIT < metric < METRIC_LIMIT
  }

  /** The declared bounds of the fields. */
  predicate FieldsValid(o: Outcome) {
    && o.prices.Positive()
    && o.prices.reference < PRICE_LIMIT && o.prices.end < PRICE_LIMIT
    && o.prices.high < PRICE_LIMIT && o.prices.low < PRICE_LIMIT
    && InField(o.rawReturn) && InField(o.directionalReturn) && InField(o.favorable) && InField(o.adverse)
    && 1 <= o.recordedBy.Length() <= 100
  }

  /** The checks that a record makes of itself, independently of the builder. */
  predicate RecordValid(o: Outcome) {
    && Max(o.prices.reference, o.prices.end) <= o.prices.high
    && o.prices.low <= Min(o.prices.reference, o.prices.end)
    && o.observedAt <= o.recordedAt
    && o.threshold == THRESHOLD
    && o.falsePositive == o.classification.FalsePositive?
    && o.drifted == (o.observed != o.expected)
  }

  /** The exact relative change from the reference price. */
  function Change(reference: Price, price: Price): real
    requires 0 < reference
  {
    price as real / reference as real - 1.0
  }

  function Metric(reference: Price, price: Price): int
    requires 0 < reference
  {
    Quantized(Change(reference, price))
  }

  /** A metric that is quantised once more. */
  function Requantized(metric: int): int {
    Nearest(metric as real)
  }

  function Abs(x: int): int {
    if x < 0 then -x else x
  }

  function Directional(expected: Trend, raw: int): int {
    match expected
    case Up => raw
    case Down => Requantized(-raw)
    case _ => Requantized(-Abs(raw))
  }

  function Favorable(expected: Trend, up: int, down: int): int {
    match expected
    case Up => Requantized(Max(0, up))
    case Down => Requantized(Max(0, Requantized(-down)))
    case _ => Requantized(0)
  }

  function Adverse(expected: Trend, raw: int, up: int, down: int): int {
    match expected
    case Up => Requantized(Min(0, down))
    case Down => Requantized(Min(0, Requantized(-up)))
    case _ => Requantized(Directional(expected, raw))
  }

  function Classify(expected: Trend, raw: int): Classification {
    var directional := Directional(expected, raw);
    if expected.Ranging? then (if Abs(raw) <= THRESHOLD then Confirmed else FalsePositive)
    else if expected.Undetermined? then Neutral
    else if THRESHOLD <= directional then Confirmed
    else if directional <= -THRESHOLD then FalsePositive
    else Neutral
  }

  function Assemble(w: Watch, p: Prices, observed: Trend, observedAt: Instant, recordedAt: Instant, actor: Padded): Outcome
    requires p.Positive()
  {
    var raw := Metric(p.reference, p.end);
    var up := Metric(p.reference, p.high);
    var down := Metric(p.reference, p.low);
    var classification := Classify(w.expected, raw);
    Outcome(w.expected, observed, p, raw, Directional(w.expected, raw),
            Favorable(w.expected, up, down), Adverse(w.expected, raw, up, down),
            classification, classification.FalsePositive?, observed != w.expected, THRESHOLD,
            observedAt, recordedAt, actor.Strip())
  }

  function Build(w: Watch, p: Prices, observed: Trend, observedAt: Instant, recordedAt: Instant, actor: Padded): (r: Result)
    ensures r.Ok? ==> FieldsValid(r.outcome) && RecordValid(r.outcome) && w.endsAt <= r.outcome.observedAt
  {
    if observedAt < w.endsAt then Err(ObservedTooEarly)
    else if recordedAt < observedAt then Err(RecordedTooEarly)
    else if !p.Positive() then Err(PriceNotPositive)
    else if p.high < Max(p.reference, p.end) then Err(HighTooLow)
    else if Min(p.reference, p.end) < p.low then Err(LowTooHigh)
    else if actor.Blank() then Err(NoActor)
    else
      var outcome := Assemble(w, p, observed, observedAt, recordedAt, actor);
      if FieldsValid(outcome) && RecordValid(outcome) then Ok(outcome) else Err(FieldRefused)
  }

  // ---- Rounding ----

  lemma RequantizedIsSame(metric: int)
    ensures Requantized(metric) == metric
  {
    NearestOfWhole(metric);
  }

  lemma MetricIsMonotone(reference: Price, a: Price, b: Price)
    requires 0 < reference && a <= b
    ensures Metric(reference, a) <= Metric(reference, b)
  {
    assert a as real / reference as real <= b as real / reference as real;
    NearestIsMonotone(Change(reference, a) * UNITS, Change(reference, b) * UNITS);
  }

  lemma MetricOfReference(reference: Price)
    requires 0 < reference
    ensures Metric(reference, reference) == 0
  {
    assert reference as real / reference as real == 1.0;
    NearestOfWhole(0);
  }

  /** The metrics in plain integers, with the re-quantisations gone. */
  lemma PlainMetrics(expected: Trend, raw: int, up: int, down: int)
    ensures Directional(expected, raw) == (if expected.Up? then raw else if expected.Down? then -raw else -Abs(raw))
    ensures Favorable(expected, up, down) ==
            (if expected.Up? then Max(0, up) else if expected.Down? then Max(0, -down) else 0)
    ensures Adverse(expected, raw, up, down) ==
            (if expected.Up? then Min(0, down) else if expected.Down? then Min(0, -up) else -Abs(raw))
  {
    RequantizedIsSame(-raw);
    RequantizedIsSame(-Abs(raw));
    RequantizedIsSame(0);
    RequantizedIsSame(-down);
    RequantizedIsSame(-up);
    RequantizedIsSame(Max(0, up));
    RequantizedIsSame(Max(0, -down));
    RequantizedIsSame(Min(0, down));
    RequantizedIsSame(Min(0, -up));
  }

  // ---- Results ----

  /** The excursions bracket the return after rounding, whatever the trend. */
  lemma ExcursionsBracketTheReturn(w: Watch, p: Prices, observed: Trend, observedAt: Instant, recordedAt: Instant,
                                   actor: Padded)
    requires Build(w, p, observed, observedAt, recordedAt, actor).Ok?
    ensures var o := Build(w, p, observed, observedAt, recordedAt, actor).outcome;
      && o.adverse <= o.directionalReturn <= o.favorable
      && o.adverse <= 0 <= o.favorable
      && (o.expected.Ranging? || o.expected.Undetermined? ==> o.adverse == o.directionalReturn && o.favorable == 0)
  {
    MetricIsMonotone(p.reference, p.end, p.high);
    MetricIsMonotone(p.reference, p.low, p.end);
    MetricIsMonotone(p.reference, p.reference, p.high);
    MetricIsMonotone(p.reference, p.low, p.reference);
    MetricOfReference(p.reference);
    PlainMetrics(w.expected, Metric(p.reference, p.end), Metric(p.reference, p.high), Metric(p.reference, p.low));
  }

  /** Which units the directional return reaches, from the observed prices alone. */
  predicate ReturnReaches(expected: Trend, p: Prices, n: int) {
    match expected
    case Up => RisesTo(p.reference, p.end, n)
    case Down => !RisesTo(p.reference, p.end, 1 - n)
    case _ => RisesTo(p.reference, p.end, n) && !RisesTo(p.reference, p.end, 1 - n)
  }

  /** Which units the favorable excursion reaches: of the high for a rise, of the low for a fall. */
  predicate FavorableReaches(expected: Trend, p: Prices, n: int) {
    n <= 0 || match expected
              case Up => RisesTo(p.reference, p.high, n)
              case Down => !RisesTo(p.reference, p.low, 1 - n)
              case _ => false
  }

  /** Which units the adverse excursion reaches: of the low for a rise, of the high for a fall. */
  predicate AdverseReaches(expected: Trend, p: Prices, n: int) {
    n <= 0 && match expected
              case Up => RisesTo(p.reference, p.low, n)
              case Down => !RisesTo(p.reference, p.high, 1 - n)
              case _ => ReturnReaches(expected, p, n)
  }

  /** The four metrics in exact prices; as this holds of every `n`, it determines them. */
  lemma MetricsAreExact(w: Watch, p: Prices, observed: Trend, observedAt: Instant, recordedAt: Instant, actor: Padded,
                        n: int)
    requires Build(w, p, observed, observedAt, recordedAt, actor).Ok?
    ensures var o := Build(w, p, observed, observedAt, recordedAt, actor).outcome;
      && (n <= o.rawReturn <==> RisesTo(p.reference, p.end, n))
      && (n <= o.directionalReturn <==> ReturnReaches(w.expected, p, n))
      && (n <= o.favorable <==> FavorableReaches(w.expected, p, n))
      && (n <= o.adverse <==> AdverseReaches(w.expected, p, n))
  {
    PlainMetrics(w.expected, Metric(p.reference, p.end), Metric(p.reference, p.high), Metric(p.reference, p.low));
    MetricReaches(p.reference, p.end, n);
    MetricReaches(p.reference, p.end, 1 - n);
    MetricReaches(p.reference, p.high, n);
    MetricReaches(p.reference, p.high, 1 - n);
    MetricReaches(p.reference, p.low, n);
    MetricReaches(p.reference, p.low, 1 - n);
    if w.expected.Ranging? || w.expected.Undetermined? {
      ExcursionsBracketTheReturn(w, p, observed, observedAt, recordedAt, actor);
    }
  }

  /** A call with the opposite expectation over the same prices is its mirror image. */
  lemma OppositeTrendsMirror(up: Watch, down: Watch, p: Prices, observed: Trend, observedAt: Instant,
                             recordedAt: Instant, actor: Padded)
    requires up.expected == Up && down == up.(expected := Down)
    ensures Build(up, p, observed, observedAt, recordedAt, actor).Ok? <==>
            Build(down, p, observed, observedAt, recordedAt, actor).Ok?
    ensures Build(up, p, observed, observedAt, recordedAt, actor).Ok? ==>
      var a := Build(up, p, observed, observedAt, recordedAt, actor).outcome;
      var b := Build(down, p, observed, observedAt, recordedAt, actor).outcome;
      && b.rawReturn == a.rawReturn && b.directionalReturn == -a.directionalReturn
      && b.favorable == -a.adverse && b.adverse == -a.favorable
      && (b.classification.Confirmed? <==> a.falsePositive) && (b.falsePositive <==> a.classification.Confirmed?)
      && (b.classification.Neutral? <==> a.classification.Neutral?)
  {
    if p.Positive() {
      var raw, high, low := Metric(p.reference, p.end), Metric(p.reference, p.high), Metric(p.reference, p.low);
      PlainMetrics(Up, raw, high, low);
      PlainMetrics(Down, raw, high, low);
    }
  }

  /**
   * The change from `reference` to `price`, rounded, is `n` units or more, in exact prices: twice 1e8 times the change
   * against twice `n` less one unit, where a tie counts for an even `n`.
   */
  predicate RisesTo(reference: Price, price: Price, n: int) {
    var twice := 200_000_000 * (price - reference);
    var bound := (2 * n - 1) * reference;
    if n % 2 == 0 then bound <= twice else bound < twice
  }

  lemma MetricReaches(reference: Price, price: Price, n: int)
    requires 0 < reference
    ensures n <= Metric(reference, price) <==> RisesTo(reference, price, n)
  {
    var x := Change(reference, price) * UNITS;
    NearestReaches(x, n);
    var r := reference as real;
    assert price as real == (price as real / r) * r;
    assert 2.0 * x * r == 200_000_000.0 * (price as real - r);
    assert (2.0 * x - (2.0 * n as real - 1.0)) * r ==
           200_000_000.0 * (price as real - r) - (2.0 * n as real - 1.0) * r;
    SignOfProduct(2.0 * x - (2.0 * n as real - 1.0), r);
    assert ((2 * n - 1) * reference) as real == (2.0 * n as real - 1.0) * r;
  }

  lemma SignOfProduct(a: real, b: real)
    requires 0.0 < b
    ensures 0.0 <= a <==> 0.0 <= a * b
    ensures 0.0 < a <==> 0.0 < a * b
  {
  }

  /**
   * The classification of a trend in exact prices: confirmed and false positive from half a unit short of the
   * threshold on, in either direction.
   */
  lemma TrendThresholdIsExact(w: Watch, p: Prices)
    requires p.Positive() && (w.expected.Up? || w.expected.Down?)
    ensures
      var gain := 200_000_000 * (p.end - p.reference);
      var rises := 999_999 * p.reference <= gain;
      var falls := gain <= -999_999 * p.reference;
      match Classify(w.expected, Metric(p.reference, p.end))
      case Confirmed => if w.expected.Up? then rises else falls
      case FalsePositive => if w.expected.Up? then falls else rises
      case Neutral => !rises && !falls
  {
    var raw := Metric(p.reference, p.end);
    PlainMetrics(w.expected, raw, 0, 0);
    MetricReaches(p.reference, p.end, THRESHOLD);
    MetricReaches(p.reference, p.end, -THRESHOLD + 1);
  }

  /** A ranging call is never neutral: it is confirmed exactly up to half a unit past the threshold. */
  lemma RangingThresholdIsExact(p: Prices)
    requires p.Positive()
    ensures
      var gain := 200_000_000 * (p.end - p.reference);
      var stays := -1_000_001 * p.reference <= gain <= 1_000_001 * p.reference;
      Classify(Ranging, Metric(p.reference, p.end)) == if stays then Confirmed else FalsePositive
  {
    MetricReaches(p.reference, p.end, THRESHOLD + 1);
    MetricReaches(p.reference, p.end, -THRESHOLD);
  }

  /** The price whose rise decides whether an outcome fits its fields: excursions only count for a trend. */
  function Peak(expected: Trend, p: Prices): Price {
    if expected.Up? || expected.Down? then p.high else p.end
  }

  lemma LossesFit(reference: Price, price: Price)
    requires 0 < reference && 0 < price
    ensures -100_000_000 <= Metric(reference, price)
  {
    MetricReaches(reference, price, -100_000_000);
  }

  /** Past the checks of its arguments the builder's record never fails a check of its own: only its fields decide. */
  lemma BuiltRecordIsConsistent(w: Watch, p: Prices, observed: Trend, observedAt: Instant, recordedAt: Instant,
                                actor: Padded)
    requires w.endsAt <= observedAt <= recordedAt && p.Positive() && !actor.Blank()
    requires p.low <= p.reference <= p.high && p.low <= p.end <= p.high
    ensures
      var o := Assemble(w, p, observed, observedAt, recordedAt, actor);
      && RecordValid(o)
      && o.expected == w.expected && o.observed == observed && o.prices == p
      && o.observedAt == observedAt && o.recordedAt == recordedAt && o.recordedBy.core == actor.core
      && (o.drifted <==> observed != w.expected) && (o.falsePositive <==> o.classification == FalsePositive)
      && Build(w, p, observed, observedAt, recordedAt, actor) == if FieldsValid(o) then Ok(o) else Err(FieldRefused)
  {
  }

  /** The builder's refusals, each of which names the first argument that is not as it should be. */
  lemma RefusalNamesTheFirstFault(w: Watch, p: Prices, observed: Trend, observedAt: Instant, recordedAt: Instant,
                                  actor: Padded)
    ensures
      var onTime := w.endsAt <= observedAt <= recordedAt;
      var positive := 0 < p.reference && 0 < p.end && 0 < p.high && 0 < p.low;
      var highest := p.reference <= p.high && p.end <= p.high;
      var lowest := p.low <= p.reference && p.low <= p.end;
      match Build(w, p, observed, observedAt, recordedAt, actor)
      case Err(ObservedTooEarly) => observedAt < w.endsAt
      case Err(RecordedTooEarly) => w.endsAt <= observedAt && recordedAt < observedAt
      case Err(PriceNotPositive) => onTime && !positive
      case Err(HighTooLow) => onTime && positive && !highest
      case Err(LowTooHigh) => onTime && positive && highest && !lowest
      case Err(NoActor) => onTime && positive && highest && lowest && actor.core == ""
      case _ => onTime && positive && highest && lowest && actor.core != ""
  {
  }

  /** What a record checks of itself: no flag, threshold, time or price range can be changed past the others. */
  lemma RecordTampering(o: Outcome, t: int)
    requires RecordValid(o)
    ensures !RecordValid(o.(falsePositive := !o.falsePositive)) && !RecordValid(o.(drifted := !o.drifted))
    ensures RecordValid(o.(threshold := t)) <==> t == 500_000
    ensures RecordValid(o.(recordedAt := t)) <==> o.observedAt <= t
    ensures RecordValid(o.(prices := o.prices.(high := t))) <==> o.prices.reference <= t && o.prices.end <= t
    ensures RecordValid(o.(prices := o.prices.(low := t))) <==> t <= o.prices.reference && t <= o.prices.end
  {
  }

  /** The largest rise that fits the field, in exact prices: half a unit short of 1e10, the tie rounding up and out. */
  predicate RiseFits(reference: Price, peak: Price) {
    200_000_000 * (peak - reference) < 1_999_999_999_999_999_999 * reference
  }

  lemma RiseFitsExactlyWhen(reference: Price, peak: Price)
    requires 0 < reference
    ensures RiseFits(reference, peak) <==> Metric(reference, peak) < METRIC_LIMIT
  {
    MetricReaches(reference, peak, METRIC_LIMIT);
  }

  /** Ordered prices are refused exactly when the high, the rise to the peak or the actor leaves its field. */
  lemma RefusedExactlyWhenTheRiseIsTooLarge(w: Watch, p: Prices, observed: Trend, observedAt: Instant,
                                            recordedAt: Instant, actor: Padded)
    requires w.endsAt <= observedAt <= recordedAt && p.Positive() && !actor.Blank()
    requires p.low <= p.reference <= p.high && p.low <= p.end <= p.high
    ensures
      var fits := p.high < 10_000_000_000_000_000_000_000_000_000 && RiseFits(p.reference, Peak(w.expected, p))
                  && |actor.core| <= 100;
      Build(w, p, observed, observedAt, recordedAt, actor) ==
        if fits then Ok(Assemble(w, p, observed, observedAt, recordedAt, actor)) else Err(FieldRefused)
  {
    var raw, high, low := Metric(p.reference, p.end), Metric(p.reference, p.high), Metric(p.reference, p.low);
    RiseFitsExactlyWhen(p.reference, Peak(w.expected, p));
    PlainMetrics(w.expected, raw, high, low);
    MetricIsMonotone(p.reference, p.end, p.high);
    LossesFit(p.reference, p.end);
    LossesFit(p.reference, p.low);
    MetricIsMonotone(p.reference, p.reference, p.high);
    MetricIsMonotone(p.reference, p.low, p.reference);
    MetricOfReference(p.reference);
    BuiltRecordIsConsistent(w, p, observed, observedAt, recordedAt, actor);
  }
}
