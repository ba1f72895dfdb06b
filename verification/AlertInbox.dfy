/** The operator's state of an alert, the log of actions behind it, and its status over time. */
module AlertInbox {
  import opened Prelude
  import opened CanonicalOrder

  datatype State = State(
    acknowledgedAt: Option<Instant>,
    acknowledgedBy: Option<Padded>,
    snoozedUntil: Option<Instant>,
    snoozedBy: Option<Padded>,
    updatedAt: Instant)

  predicate ValidActor(actor: Padded) {
    actor.Trimmed() && 1 <= actor.Length() <= 100
  }

  predicate ValidState(s: State) {
    && (s.acknowledgedBy.Some? ==> ValidActor(s.acknowledgedBy.value))
    && (s.snoozedBy.Some? ==> ValidActor(s.snoozedBy.value))
    && s.acknowledgedAt.Some? == s.acknowledgedBy.Some?
    && s.snoozedUntil.Some? == s.snoozedBy.Some?
    && (s.acknowledgedAt.Some? ==> s.snoozedUntil.None? && s.acknowledgedAt.value <= s.updatedAt)
  }

  function Initial(createdAt: Instant): State {
    State(None, None, None, None, createdAt)
  }

  datatype Refusal = TooEarly | NoActor | AlreadyAcknowledged | BadDuration

  datatype Reply = Ok(state: State) | Err(refusal: Refusal)

  // Both transitions copy the state with new fields; the copy is not validated again.

  function Acknowledge(s: State, actor: Padded, at: Instant): Reply {
    if s.acknowledgedAt.Some? then Ok(s)
    else if at < s.updatedAt then Err(TooEarly)
    else if actor.Blank() then Err(NoActor)
    else
      Ok(s.(acknowledgedAt := Some(at), acknowledgedBy := Some(actor.Strip()),
            snoozedUntil := None, snoozedBy := None, updatedAt := at))
  }

  const MIN_SNOOZE := 300
  const MAX_SNOOZE := 86_400

  function Snooze(s: State, actor: Padded, at: Instant, seconds: int): Reply {
    if s.acknowledgedAt.Some? then Err(AlreadyAcknowledged)
    else if at < s.updatedAt then Err(TooEarly)
    else if seconds < MIN_SNOOZE || MAX_SNOOZE < seconds then Err(BadDuration)
    else if actor.Blank() then Err(NoActor)
    else Ok(s.(snoozedUntil := Some(at + seconds * SECOND), snoozedBy := Some(actor.Strip()), updatedAt := at))
  }

  // ---- Action records ----

  datatype Action = Action(isSnooze: bool, actedBy: Padded, occurredAt: Instant, snoozedUntil: Option<Instant>)

  predicate ValidAction(a: Action) {
    && ValidActor(a.actedBy)
    && a.isSnooze == a.snoozedUntil.Some?
    && (a.snoozedUntil.Some? ==> a.occurredAt < a.snoozedUntil.value)
  }

  /** The length of the actor is checked as it is given, before it is trimmed. */
  function BuildAction(isSnooze: bool, actor: Padded, at: Instant, until: Option<Instant>): (a: Option<Action>)
    ensures a.Some? ==> ValidAction(a.value)
  {
    var action := Action(isSnooze, actor.Strip(), at, until);
    if !actor.Blank() && actor.Length() <= 100 && ValidAction(action) then Some(action) else None
  }

  // ---- The repository, one alert at a time ----

  datatype Alert = Alert(createdAt: Instant, expiresAt: Instant)

  /** The alert, its state row and the actions recorded for it. */
  datatype Entry = Entry(alert: Alert, state: State, log: seq<Action>)

  datatype Call =
    | AcknowledgeCall(actor: Padded, at: Instant)
    | SnoozeCall(actor: Padded, at: Instant, seconds: int)

  datatype Outcome =
    | Changed(entry: Entry)
    | Unchanged
    | Conflict
    | Rejected     // an argument or the action record is refused
    | Repeated     // the action has been recorded before, and its id is the key of the table of actions

  /** An accepted change is written together with its action record, or not at all. */
  function Written(e: Entry, isSnooze: bool, actor: Padded, at: Instant, reply: Reply): Outcome {
    if reply.Err? then Rejected
    else
      var action := BuildAction(isSnooze, actor, at, if isSnooze then reply.state.snoozedUntil else None);
      if action.None? then Rejected
      else if action.value in e.log then Repeated
      else Changed(Entry(e.alert, reply.state, e.log + [action.value]))
  }

  function Perform(e: Entry, c: Call): Outcome {
    match c
    case AcknowledgeCall(actor, at) =>
      if e.state.acknowledgedAt.Some? then Unchanged
      else if e.alert.expiresAt <= at then Conflict
      else Written(e, false, actor, at, Acknowledge(e.state, actor, at))
    case SnoozeCall(actor, at, seconds) =>
      if e.alert.expiresAt <= at then Conflict
      else if e.state.acknowledgedAt.Some? then Conflict
      else Written(e, true, actor, at, Snooze(e.state, actor, at, seconds))
  }

  /** The entry of an alert after any sequence of calls. */
  function After(alert: Alert, calls: seq<Call>): Entry {
    if calls == [] then Entry(alert, Initial(alert.createdAt), [])
    else
      var e := After(alert, calls[..|calls| - 1]);
      var outcome := Perform(e, calls[|calls| - 1]);
      if outcome.Changed? then outcome.entry else e
  }

  // ---- The state follows the log ----

  /** The first acknowledgement from `i` on, or the length of the log. */
  function FirstAcknowledgement(log: seq<Action>, i: nat): (k: nat)
    requires i <= |log|
    ensures i <= k <= |log|
    ensures k < |log| ==> !log[k].isSnooze
    ensures forall n :: i <= n < k ==> log[n].isSnooze
    decreases |log| - i
  {
    if i < |log| && log[i].isSnooze then FirstAcknowledgement(log, i + 1) else i
  }

  /** The state that an action leaves behind. */
  function StateFrom(a: Action): State {
    if a.isSnooze then State(None, None, a.snoozedUntil, Some(a.actedBy), a.occurredAt)
    else State(Some(a.occurredAt), Some(a.actedBy), None, None, a.occurredAt)
  }

  /** What the log alone says: the first acknowledgement wins, otherwise the last snooze. */
  function FromLog(createdAt: Instant, log: seq<Action>): State {
    var first := FirstAcknowledgement(log, 0);
    if first < |log| then StateFrom(log[first])
    else if log == [] then Initial(createdAt)
    else StateFrom(log[|log| - 1])
  }

  predicate Recorded(e: Entry) {
    && e.state == FromLog(e.alert.createdAt, e.log)
    && (forall i :: 0 <= i < |e.log| ==> ValidAction(e.log[i]))
    && (forall i :: 0 <= i < |e.log| ==> e.alert.createdAt <= e.log[i].occurredAt < e.alert.expiresAt)
    && (forall i, k :: 0 <= i < k < |e.log| ==> e.log[i].occurredAt <= e.log[k].occurredAt)
    && (forall i :: 0 <= i < |e.log| - 1 ==> e.log[i].isSnooze)
    && NoRepetition(e.log)
  }

  lemma UnacknowledgedLog(e: Entry)
    requires Recorded(e) && e.state.acknowledgedAt.None?
    ensures FirstAcknowledgement(e.log, 0) == |e.log|
    ensures e.state.updatedAt == if e.log == [] then e.alert.createdAt else e.log[|e.log| - 1].occurredAt
  {
  }

  lemma NewAction(e: Entry, c: Call) returns (a: Action)
    requires e.state.acknowledgedAt.None? ==> e.state.acknowledgedBy.None?
    requires Perform(e, c).Changed?
    ensures ValidAction(a) && a !in e.log && e.state.acknowledgedAt.None?
    ensures e.state.updatedAt <= a.occurredAt < e.alert.expiresAt
    ensures Perform(e, c).entry == Entry(e.alert, StateFrom(a), e.log + [a])
  {
    var log := Perform(e, c).entry.log;
    a := log[|log| - 1];
  }

  lemma AppendIsRecorded(e: Entry, a: Action)
    requires Recorded(e) && e.state.acknowledgedAt.None? && ValidAction(a) && a !in e.log
    requires e.state.updatedAt <= a.occurredAt < e.alert.expiresAt
    ensures Recorded(Entry(e.alert, StateFrom(a), e.log + [a]))
  {
    UnacknowledgedLog(e);
    var log := e.log + [a];
    assert log[|e.log|] == a && forall i :: 0 <= i < |e.log| ==> log[i] == e.log[i] && log[i].isSnooze;
    var first := FirstAcknowledgement(log, 0);
    assert first == if a.isSnooze then |log| else |e.log|;
  }

  lemma ChangeIsRecorded(e: Entry, c: Call)
    requires Recorded(e) && Perform(e, c).Changed?
    ensures Recorded(Perform(e, c).entry)
    ensures e.state.updatedAt <= Perform(e, c).entry.state.updatedAt
  {
    var a := NewAction(e, c);
    AppendIsRecorded(e, a);
  }

  lemma RecordedIsValid(e: Entry)
    requires Recorded(e)
    ensures ValidState(e.state)
  {
  }

  lemma AfterOneMore(alert: Alert, calls: seq<Call>)
    requires calls != [] && Recorded(After(alert, calls[..|calls| - 1]))
    ensures
      var e := After(alert, calls[..|calls| - 1]);
      && Recorded(After(alert, calls)) && After(alert, calls).alert == e.alert
      && e.state.updatedAt <= After(alert, calls).state.updatedAt && e.log <= After(alert, calls).log
  {
    var e, c := After(alert, calls[..|calls| - 1]), calls[|calls| - 1];
    if Perform(e, c).Changed? {
      var a := NewAction(e, c);
      ChangeIsRecorded(e, c);
    }
  }

  /**
   * After any calls the state is what the log says, and valid although no copy of it was ever validated: only the
   * last action can be an acknowledgement, and every effective call has left a valid record.
   */
  lemma {:induction false} StateFollowsTheLog(alert: Alert, calls: seq<Call>)
    ensures Recorded(After(alert, calls)) && ValidState(After(alert, calls).state)
    ensures After(alert, calls).alert == alert
    ensures calls != [] ==>
      && After(alert, calls[..|calls| - 1]).state.updatedAt <= After(alert, calls).state.updatedAt
      && After(alert, calls[..|calls| - 1]).log <= After(alert, calls).log
  {
    if calls != [] {
      StateFollowsTheLog(alert, calls[..|calls| - 1]);
      AfterOneMore(alert, calls);
    }
    RecordedIsValid(After(alert, calls));
  }

  /**
   * The log after any calls, in fields: actions in the order of their times, all of them within the life of the alert,
   * none twice, and nothing after an acknowledgement.
   */
  lemma LogIsInOrder(alert: Alert, calls: seq<Call>, i: nat, k: nat)
    requires i <= k < |After(alert, calls).log|
    ensures
      var log := After(alert, calls).log;
      && alert.createdAt <= log[i].occurredAt <= log[k].occurredAt < alert.expiresAt
      && (i < k ==> log[i] != log[k] && log[i].isSnooze) && (log[i].isSnooze <==> log[i].snoozedUntil.Some?)
      && log[i].actedBy == Padded("", log[i].actedBy.core, "") && 1 <= |log[i].actedBy.core| <= 100
  {
    StateFollowsTheLog(alert, calls);
    var log := After(alert, calls).log;
    assert ValidAction(log[i]);
  }

  /** And the state, which is that of the last action. */
  lemma StateIsTheLastAction(alert: Alert, calls: seq<Call>)
    ensures
      var log, s := After(alert, calls).log, After(alert, calls).state;
      if log == [] then s == State(None, None, None, None, alert.createdAt)
      else
        var last := log[|log| - 1];
        if last.isSnooze then s == State(None, None, last.snoozedUntil, Some(last.actedBy), last.occurredAt)
        else s == State(Some(last.occurredAt), Some(last.actedBy), None, None, last.occurredAt)
  {
    StateFollowsTheLog(alert, calls);
    var log := After(alert, calls).log;
    assert FirstAcknowledgement(log, 0) < |log| ==> FirstAcknowledgement(log, 0) == |log| - 1;
  }

  /** What an effective call leaves behind: its own action at the end of the log, and the state of that action. */
  lemma CallIsRecorded(e: Entry, c: Call)
    requires Recorded(e) && Perform(e, c).Changed?
    ensures
      var after := Perform(e, c).entry;
      var until := if c.SnoozeCall? then Some(c.at + c.seconds * 1_000_000) else None;
      && after.alert == e.alert && after.log == e.log + [Action(c.SnoozeCall?, Padded("", c.actor.core, ""), c.at, until)]
      && after.state.updatedAt == c.at && after.state.snoozedUntil == until
      && after.state.snoozedBy == (if c.SnoozeCall? then Some(Padded("", c.actor.core, "")) else None)
      && after.state.acknowledgedAt == (if c.SnoozeCall? then None else Some(c.at))
      && after.state.acknowledgedBy == (if c.SnoozeCall? then None else Some(Padded("", c.actor.core, "")))
  {
    UnacknowledgedLog(e);
    RecordedIsValid(e);
  }

  /** Which calls are refused, and how: the rest is either recorded or has nothing left to do. */
  lemma RefusedExactlyWhen(e: Entry, c: Call)
    requires Recorded(e)
    ensures Perform(e, c).Unchanged? <==> c.AcknowledgeCall? && e.state.acknowledgedAt.Some?
    ensures Perform(e, c).Conflict? <==>
      if c.AcknowledgeCall? then e.state.acknowledgedAt.None? && e.alert.expiresAt <= c.at
      else e.state.acknowledgedAt.Some? || e.alert.expiresAt <= c.at
    ensures Perform(e, c).Rejected? <==>
      && e.state.acknowledgedAt.None? && c.at < e.alert.expiresAt
      && (c.at < e.state.updatedAt || c.actor.core == "" || 100 < c.actor.Length()
          || (c.SnoozeCall? && !(300 <= c.seconds <= 86_400)))
  {
  }

  /**
   * It is the record that keeps overlong actors out: the copied state alone is valid exactly when the trimmed actor
   * fits its field.
   */
  lemma CopyIsValidExactlyWhenActorFits(s: State, actor: Padded, at: Instant, seconds: int)
    requires s.acknowledgedAt.None? && s.acknowledgedBy.None?
    ensures Acknowledge(s, actor, at).Ok? ==> (ValidState(Acknowledge(s, actor, at).state) <==> |actor.core| <= 100)
    ensures Snooze(s, actor, at, seconds).Ok? ==> (ValidState(Snooze(s, actor, at, seconds).state) <==> |actor.core| <= 100)
  {
  }

  /** And the record is stricter than the state: it also refuses an actor that only fits once it is trimmed. */
  lemma RecordRefusedExactlyWhenGivenActorIsTooLong(s: State, actor: Padded, at: Instant, seconds: int)
    requires Snooze(s, actor, at, seconds).Ok?
    ensures BuildAction(true, actor, at, Snooze(s, actor, at, seconds).state.snoozedUntil).Some? <==> actor.Length() <= 100
    ensures BuildAction(false, actor, at, None).Some? <==> actor.Length() <= 100
  {
  }

  // ---- Status over time ----

  datatype Status = Snoozed | Active | Expired | Acknowledged

  function StatusAt(alert: Alert, s: State, at: Instant): Status {
    if s.acknowledgedAt.Some? then Acknowledged
    else if alert.expiresAt <= at then Expired
    else if s.snoozedUntil.Some? && at < s.snoozedUntil.value then Snoozed
    else Active
  }

  predicate CanAct(alert: Alert, s: State, at: Instant) {
    var status := StatusAt(alert, s, at);
    !(status.Acknowledged? || status.Expired?)
  }

  function Age(status: Status): int {
    match status
    case Snoozed => 0
    case Active => 1
    case Expired => 2
    case Acknowledged => 3
  }

  /** For a fixed state the status only moves forward, and acknowledged stays acknowledged. */
  lemma StatusMovesForward(alert: Alert, s: State, early: Instant, late: Instant)
    requires early <= late
    ensures Age(StatusAt(alert, s, early)) <= Age(StatusAt(alert, s, late))
    ensures
      match StatusAt(alert, s, late)
      case Snoozed => StatusAt(alert, s, early).Snoozed?
      case Active => StatusAt(alert, s, early).Snoozed? || StatusAt(alert, s, early).Active?
      case Expired => !StatusAt(alert, s, early).Acknowledged?
      case Acknowledged => StatusAt(alert, s, early).Acknowledged?
  {
  }

  /**
   * What the inbox offers is what the repository accepts, apart from the arguments of the call itself and from a
   * snooze that has been recorded before.
   */
  lemma OfferedExactlyWhenAccepted(e: Entry, actor: Padded, at: Instant, seconds: int)
    requires Recorded(e) && e.state.updatedAt <= at && !actor.Blank() && actor.Length() <= 100
    ensures Perform(e, SnoozeCall(actor, at, seconds)).Changed? <==>
            CanAct(e.alert, e.state, at) && 300 <= seconds <= 86_400
            && Action(true, actor.Strip(), at, Some(at + seconds * SECOND)) !in e.log
    ensures Perform(e, AcknowledgeCall(actor, at)).Changed? <==> CanAct(e.alert, e.state, at)
  {
    if e.state.acknowledgedAt.None? {
      UnacknowledgedLog(e);
      assert forall i :: 0 <= i < |e.log| ==> e.log[i].isSnooze;
    }
  }

  /** A snooze repeated at the same instant is offered and then refused, even if other white space surrounds the actor. */
  lemma RepeatedSnoozeIsOfferedAndRefused(e: Entry, actor: Padded, again: Padded, at: Instant, seconds: int)
    requires Perform(e, SnoozeCall(actor, at, seconds)).Changed?
    requires again.Strip() == actor.Strip() && again.Length() <= 100
    ensures
      var after := Perform(e, SnoozeCall(actor, at, seconds)).entry;
      CanAct(after.alert, after.state, at) && Perform(after, SnoozeCall(again, at, seconds)) == Repeated
  {
  }

  /** A snooze shows until it ends or the alert expires, whichever comes first. */
  lemma SnoozeShows(e: Entry, actor: Padded, at: Instant, seconds: int, later: Instant)
    requires Perform(e, SnoozeCall(actor, at, seconds)).Changed? && at <= later
    ensures
      var after := Perform(e, SnoozeCall(actor, at, seconds)).entry;
      StatusAt(e.alert, after.state, later).Snoozed? <==> later < Min(at + seconds * SECOND, e.alert.expiresAt)
  {
  }

  // ---- Summary ----

  /** A row of the outer join: an alert, and its state row if there is one. */
  datatype Row = Row(alert: Alert, state: Option<State>)

  /** The conditions of the four count queries; a comparison with a missing value is never true. */
  predicate Selected(status: Status, r: Row, at: Instant) {
    var acknowledged := r.state.Some? && r.state.value.acknowledgedAt.Some?;
    var snoozedUntil := if r.state.Some? then r.state.value.snoozedUntil else None;
    match status
    case Acknowledged => acknowledged
    case Expired => !acknowledged && r.alert.expiresAt <= at
    case Snoozed => !acknowledged && at < r.alert.expiresAt && snoozedUntil.Some? && at < snoozedUntil.value
    case Active => !acknowledged && at < r.alert.expiresAt && (snoozedUntil.None? || snoozedUntil.value <= at)
  }

  function StateOf(r: Row): State {
    if r.state.Some? then r.state.value else Initial(r.alert.createdAt)
  }

  /** The queries and the item agree on the status of every row. */
  lemma QueriesAgreeWithItems(status: Status, r: Row, at: Instant)
    ensures Selected(status, r, at) <==> StatusAt(r.alert, StateOf(r), at) == status
  {
  }

  function CountOf(status: Status, rows: seq<Row>, at: Instant): nat {
    if rows == [] then 0
    else CountOf(status, rows[..|rows| - 1], at) + if Selected(status, rows[|rows| - 1], at) then 1 else 0
  }

  /** The four separate counts partition the alerts, so that the summary accepts their sum as the total. */
  lemma {:induction false} CountsPartitionTheAlerts(rows: seq<Row>, at: Instant)
    ensures CountOf(Active, rows, at) + CountOf(Snoozed, rows, at) + CountOf(Acknowledged, rows, at)
            + CountOf(Expired, rows, at) == |rows|
  {
    if rows != [] {
      CountsPartitionTheAlerts(rows[..|rows| - 1], at);
    }
  }
}
