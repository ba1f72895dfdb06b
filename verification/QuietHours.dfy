/** The quiet hours of a publication policy, in a zone with a fixed offset from UTC. */
module QuietHours {
  import opened Prelude

  const MINUTE: Duration := 60 * SECOND
  const DAY: Duration := 1440 * MINUTE

  datatype Policy = Policy(enabled: bool, startMinute: int, endMinute: int, offset: Duration)

  predicate ValidPolicy(p: Policy) {
    && 0 <= p.startMinute <= 1439 && 0 <= p.endMinute <= 1439
    && (p.enabled ==> p.startMinute != p.endMinute)
    && -DAY < p.offset < DAY
  }

  /** The local wall clock, as time since a local midnight. */
  function Local(p: Policy, at: Instant): Duration {
    at + p.offset
  }

  /** Midnight of the local day of `at`. */
  function LocalMidnight(p: Policy, at: Instant): Duration {
    Local(p, at) - Local(p, at) % DAY
  }

  function MinuteOfDay(p: Policy, at: Instant): (m: int)
    ensures 0 <= m < 1440
  {
    Local(p, at) % DAY / MINUTE
  }

  /** The window, which may run over midnight. */
  predicate ActiveMinute(p: Policy, minute: int) {
    if p.startMinute < p.endMinute then p.startMinute <= minute < p.endMinute
    else p.startMinute <= minute || minute < p.endMinute
  }

  predicate Quiet(p: Policy, at: Instant) {
    p.enabled && ActiveMinute(p, MinuteOfDay(p, at))
  }

  function QuietHoursEnd(p: Policy, at: Instant): (end: Option<Instant>)
    ensures end.Some? <==> Quiet(p, at)
  {
    if !p.enabled then None
    else
      var minute := MinuteOfDay(p, at);
      if !ActiveMinute(p, minute) then None
      else
        var nextDay := p.endMinute < p.startMinute && p.startMinute <= minute;
        var endDate := LocalMidnight(p, at) + if nextDay then DAY else 0;
        Some(endDate + p.endMinute * MINUTE - p.offset)
  }

  /** How many minutes a day are quiet. */
  function QuietMinutes(p: Policy): int {
    (p.endMinute - p.startMinute) % 1440
  }

  // ---- Results ----

  /** How long the window still lasts, in whole minutes counted from the start of the current one. */
  function MinutesLeft(p: Policy, minute: int): int {
    (p.endMinute - minute) % 1440
  }

  lemma LocalParts(p: Policy, at: Instant)
    ensures var past := Local(p, at) % DAY;
      && 0 <= past < DAY
      && MinuteOfDay(p, at) * MINUTE <= past < (MinuteOfDay(p, at) + 1) * MINUTE
      && at == LocalMidnight(p, at) - p.offset + past
  {
  }

  /** The end is the start of the current minute plus the minutes left, across midnight or not. */
  lemma EndInMinutes(p: Policy, at: Instant)
    requires ValidPolicy(p) && Quiet(p, at)
    ensures 1 <= MinutesLeft(p, MinuteOfDay(p, at)) <= QuietMinutes(p)
    ensures QuietHoursEnd(p, at).value ==
            LocalMidnight(p, at) - p.offset + (MinuteOfDay(p, at) + MinutesLeft(p, MinuteOfDay(p, at))) * MINUTE
  {
    LocalParts(p, at);
  }

  /** The end comes strictly later, and no later than the length of the window. */
  lemma EndIsAhead(p: Policy, at: Instant)
    requires ValidPolicy(p) && Quiet(p, at)
    ensures at < QuietHoursEnd(p, at).value <= at + QuietMinutes(p) * MINUTE
    ensures QuietMinutes(p) < 1440
  {
    EndInMinutes(p, at);
    LocalParts(p, at);
  }

  lemma WholeDays(x: int, days: int, rest: int)
    requires x == days * DAY + rest && 0 <= rest < DAY
    ensures x % DAY == rest && x - x % DAY == days * DAY
  {
  }

  /** The minute and the midnight of an instant that lies `minutes` whole minutes and a bit into a local day. */
  lemma MinuteAt(p: Policy, midnight: Duration, at: Instant, minute: int)
    requires midnight % DAY == 0 && 0 <= minute < 1440
    requires minute * MINUTE <= at + p.offset - midnight < (minute + 1) * MINUTE
    ensures MinuteOfDay(p, at) == minute && LocalMidnight(p, at) == midnight
  {
    WholeDays(at + p.offset, midnight / DAY, at + p.offset - midnight);
  }

  /** The same for an instant of that day or of the next one. */
  lemma MinuteOfTwoDays(p: Policy, midnight: Duration, at: Instant, minute: int)
    requires midnight % DAY == 0 && 0 <= minute < 2880
    requires minute * MINUTE <= at + p.offset - midnight < (minute + 1) * MINUTE
    ensures MinuteOfDay(p, at) == minute % 1440
    ensures LocalMidnight(p, at) == midnight + if minute < 1440 then 0 else DAY
  {
    if minute < 1440 {
      MinuteAt(p, midnight, at, minute);
    } else {
      MinuteAt(p, midnight + DAY, at, minute - 1440);
    }
  }

  lemma WholeMinutes(x: int)
    ensures x / MINUTE * MINUTE <= x < (x / MINUTE + 1) * MINUTE
  {
  }

  lemma MidnightIsWhole(p: Policy, at: Instant)
    ensures LocalMidnight(p, at) % DAY == 0
  {
  }

  /** How many minutes after the one of `at` a later instant lies, and where that is in its own local day. */
  lemma LaterMinute(p: Policy, at: Instant, later: Instant) returns (k: int)
    requires at <= later
    ensures 0 <= k
    ensures (MinuteOfDay(p, at) + k) * MINUTE <= later + p.offset - LocalMidnight(p, at)
            < (MinuteOfDay(p, at) + k + 1) * MINUTE
    ensures k < 1440 ==>
      && MinuteOfDay(p, later) == (MinuteOfDay(p, at) + k) % 1440
      && LocalMidnight(p, later) == LocalMidnight(p, at) + if MinuteOfDay(p, at) + k < 1440 then 0 else DAY
  {
    LocalParts(p, at);
    MidnightIsWhole(p, at);
    var midnight, minute := LocalMidnight(p, at), MinuteOfDay(p, at);
    var past := later + p.offset - midnight;
    WholeMinutes(past);
    k := past / MINUTE - minute;
    assert minute * MINUTE <= past;
    if k < 1440 {
      MinuteOfTwoDays(p, midnight, later, minute + k);
    }
  }

  /** The window of the local day `day` covers the instant: it opens at its start and has its length. */
  predicate Covers(p: Policy, day: int, at: Instant) {
    var opens := (1440 * day + p.startMinute) * 60_000_000;
    opens <= at + p.offset < opens + QuietMinutes(p) * 60_000_000
  }

  lemma DayOf(local: Duration, day: int, minute: int)
    requires 0 <= minute < 1440
    requires (1440 * day + minute) * MINUTE <= local < (1440 * day + minute + 1) * MINUTE
    ensures local % DAY / MINUTE == minute
  {
    WholeDays(local, day, local - day * DAY);
  }

  lemma QuietIsInAWindow(p: Policy, at: Instant)
    requires ValidPolicy(p) && Quiet(p, at)
    ensures exists day: int :: Covers(p, day, at)
  {
    LocalParts(p, at);
    var today := (at + p.offset) / DAY;
    assert Covers(p, if p.startMinute <= MinuteOfDay(p, at) then today else today - 1, at);
  }

  lemma WindowIsQuiet(p: Policy, day: int, at: Instant)
    requires ValidPolicy(p) && p.enabled && Covers(p, day, at)
    ensures Quiet(p, at)
  {
    var local := at + p.offset;
    WholeMinutes(local);
    var k := local / MINUTE - 1440 * day;
    assert p.startMinute <= k < p.startMinute + QuietMinutes(p);
    if k < 1440 { DayOf(local, day, k); } else { DayOf(local, day + 1, k - 1440); }
  }

  /** Quiet hours are the windows of all local days, each of which opens at the start and lasts to the next end. */
  lemma QuietExactlyInAWindow(p: Policy, at: Instant)
    requires ValidPolicy(p)
    ensures Quiet(p, at) <==> p.enabled && exists day: int :: Covers(p, day, at)
  {
    if Quiet(p, at) {
      QuietIsInAWindow(p, at);
    }
    if p.enabled && exists day: int :: Covers(p, day, at) {
      var day: int :| Covers(p, day, at);
      WindowIsQuiet(p, day, at);
    }
  }

  /** Every instant from the evaluated one to the end is quiet, and has the same end. */
  lemma QuietUntilTheEnd(p: Policy, at: Instant, later: Instant)
    requires ValidPolicy(p) && Quiet(p, at) && at <= later < QuietHoursEnd(p, at).value
    ensures Quiet(p, later) && QuietHoursEnd(p, later) == QuietHoursEnd(p, at)
  {
    EndInMinutes(p, at);
    var k := LaterMinute(p, at, later);
    assert k < MinutesLeft(p, MinuteOfDay(p, at));
  }

  /** The end itself is not quiet. */
  lemma EndIsNotQuiet(p: Policy, at: Instant)
    requires ValidPolicy(p) && Quiet(p, at)
    ensures !Quiet(p, QuietHoursEnd(p, at).value)
  {
    var end := QuietHoursEnd(p, at).value;
    EndInMinutes(p, at);
    EndIsAhead(p, at);
    var k := LaterMinute(p, at, end);
    assert k == MinutesLeft(p, MinuteOfDay(p, at));
    assert MinuteOfDay(p, end) == p.endMinute;
  }

  /** So the end is the first instant at or after the evaluated one that is not quiet, and the only one such. */
  lemma EndIsTheFirstAudibleInstant(p: Policy, at: Instant, e: Instant)
    requires ValidPolicy(p)
    ensures QuietHoursEnd(p, at) == Some(e) <==>
      at < e && !Quiet(p, e) && forall t :: at <= t < e ==> Quiet(p, t)
  {
    if Quiet(p, at) {
      var end := QuietHoursEnd(p, at).value;
      EndIsAhead(p, at);
      EndIsNotQuiet(p, at);
      forall t | at <= t < end
        ensures Quiet(p, t)
      {
        QuietUntilTheEnd(p, at, t);
      }
    } else if at < e {
      assert !Quiet(p, at);
    }
  }

  function Count(p: Policy, n: nat): (c: nat)
    requires n <= 1440
  {
    if n == 0 then 0 else Count(p, n - 1) + if ActiveMinute(p, n - 1) then 1 else 0
  }

  /** The quiet minutes among the first `n` of a day. */
  lemma {:induction false} CountIs(p: Policy, n: nat)
    requires ValidPolicy(p) && p.enabled && n <= 1440
    ensures Count(p, n) ==
      if p.startMinute < p.endMinute then Max(0, Min(n, p.endMinute) - p.startMinute)
      else Min(n, p.endMinute) + Max(0, n - p.startMinute)
  {
    if n > 0 {
      CountIs(p, n - 1);
    }
  }

  /** A day has exactly as many quiet minutes as the window is long. */
  lemma DayHasTheWindow(p: Policy)
    requires ValidPolicy(p) && p.enabled
    ensures Count(p, 1440) == QuietMinutes(p) && 1 <= QuietMinutes(p) <= 1439
  {
    CountIs(p, 1440);
  }

  /** Quiet hours are the same every day. */
  lemma SameEveryDay(p: Policy, at: Instant)
    ensures Quiet(p, at + DAY) == Quiet(p, at)
    ensures QuietHoursEnd(p, at).Some? ==> QuietHoursEnd(p, at + DAY) == Some(QuietHoursEnd(p, at).value + DAY)
  {
    LocalParts(p, at);
    MinuteAt(p, LocalMidnight(p, at) + DAY, at + DAY, MinuteOfDay(p, at));
  }
}
