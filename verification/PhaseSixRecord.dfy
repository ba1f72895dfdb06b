/** The acceptance record of phase six as a document with derived fields: written, and read back critically. */
module PhaseSixRecord {
  import opened Prelude

  /** The names in a document; those that this module does not care about are fields of the record's body. */
  datatype Key =
    | Gates
    | FailedGates
    | Ready
    | Checksum
    | GateId
    | Commands
    | Passed
    | Label
    | CommandLine
    | ExitCode
    | DurationMs
    | Other(name: string)

  datatype Json =
    | Null
    | Bool(value: bool)
    | Num(number: real)
    | Str(text: string)
    | List(items: seq<Json>)
    | Obj(fields: map<Key, Json>)

  type Document = map<Key, Json>

  datatype Command = Command(title: string, arguments: seq<string>, exitCode: int, durationMs: int)

  datatype Gate = Gate(id: string, commands: seq<Command>)
  {
    predicate Passes() {
      forall i :: 0 <= i < |commands| ==> commands[i].exitCode == 0
    }
  }

  datatype Record<Body> = Record(body: Body, gates: seq<Gate>)

  /** How the rest of the record is kept, the gates it must have, and the digest of the whole. */
  datatype Format<!Body> = Format(
    encode: Body -> Document,
    decode: Document -> Option<Body>,
    gateIds: seq<string>,
    digest: Record<Body> -> string)

  const DERIVED := {FailedGates, Ready, Checksum}

  ghost predicate ValidFormat<Body(!new)>(f: Format<Body>) {
    && f.gateIds != []
    && (forall b: Body :: f.decode(f.encode(b)) == Some(b))
    && (forall b: Body :: f.encode(b).Keys !! DERIVED + {Gates})
  }

  predicate ValidCommand(c: Command) {
    && 1 <= |c.title| <= 100 && c.arguments != [] && 0 <= c.durationMs
    && forall i :: 0 <= i < |c.arguments| ==> c.arguments[i] != ""
  }

  predicate ValidGate(g: Gate) {
    g.commands != [] && forall i :: 0 <= i < |g.commands| ==> ValidCommand(g.commands[i])
  }

  predicate ValidRecord<Body>(f: Format<Body>, r: Record<Body>) {
    && |r.gates| == |f.gateIds|
    && forall i :: 0 <= i < |r.gates| ==> r.gates[i].id == f.gateIds[i] && ValidGate(r.gates[i])
  }

  // ---- Lists ----

  function EncodeAll<T>(xs: seq<T>, encode: T -> Json): (j: seq<Json>)
    ensures |j| == |xs| && forall i :: 0 <= i < |j| ==> j[i] == encode(xs[i])
  {
    seq(|xs|, i requires 0 <= i < |xs| => encode(xs[i]))
  }

  /** The first `n` items, if every one of them can be read. */
  function DecodeAll<T>(items: seq<Json>, n: nat, decode: Json -> Option<T>): (r: Option<seq<T>>)
    requires n <= |items|
    ensures r.Some? <==> forall i :: 0 <= i < n ==> decode(items[i]).Some?
    ensures r.Some? ==> |r.value| == n && forall i :: 0 <= i < n ==> decode(items[i]) == Some(r.value[i])
  {
    if n == 0 then Some([])
    else
      var before, last := DecodeAll(items, n - 1, decode), decode(items[n - 1]);
      if before.Some? && last.Some? then Some(before.value + [last.value]) else None
  }

  lemma {:induction false} DecodesTo<T>(items: seq<Json>, xs: seq<T>, n: nat, decode: Json -> Option<T>)
    requires n <= |items| == |xs| && forall i :: 0 <= i < n ==> decode(items[i]) == Some(xs[i])
    ensures DecodeAll(items, n, decode) == Some(xs[..n])
  {
    if n > 0 {
      DecodesTo(items, xs, n - 1, decode);
      assert xs[..n] == xs[..n - 1] + [xs[n - 1]];
    }
  }

  lemma ListRoundTrip<T>(xs: seq<T>, encode: T -> Json, decode: Json -> Option<T>)
    requires forall i :: 0 <= i < |xs| ==> decode(encode(xs[i])) == Some(xs[i])
    ensures DecodeAll(EncodeAll(xs, encode), |xs|, decode) == Some(xs)
  {
    var items := EncodeAll(xs, encode);
    DecodesTo(items, xs, |xs|, decode);
    assert xs[..|xs|] == xs;
  }

  // ---- Commands and gates ----

  function EncodeText(t: string): Json {
    Str(t)
  }

  function DecodeText(j: Json): Option<string> {
    if j.Str? then Some(j.text) else None
  }

  function DecodeWhole(j: Json): Option<int> {
    if j.Num? && j.number.Floor as real == j.number then Some(j.number.Floor) else None
  }

  const COMMAND_KEYS := {Label, CommandLine, ExitCode, DurationMs}

  function EncodeCommand(c: Command): Json {
    Obj(map[Label := Str(c.title), CommandLine := List(EncodeAll(c.arguments, EncodeText)),
            ExitCode := Num(c.exitCode as real), DurationMs := Num(c.durationMs as real)])
  }

  /** A command is read from exactly its own keys. */
  function DecodeCommand(j: Json): (c: Option<Command>)
    ensures c.Some? ==> ValidCommand(c.value)
  {
    if !j.Obj? || j.fields.Keys != COMMAND_KEYS || !j.fields[CommandLine].List? then None
    else
      var arguments := j.fields[CommandLine].items;
      var title, read := DecodeText(j.fields[Label]), DecodeAll(arguments, |arguments|, DecodeText);
      var exitCode, durationMs := DecodeWhole(j.fields[ExitCode]), DecodeWhole(j.fields[DurationMs]);
      if title.None? || read.None? || exitCode.None? || durationMs.None? then None
      else
        var c := Command(title.value, read.value, exitCode.value, durationMs.value);
        if ValidCommand(c) then Some(c) else None
  }

  lemma CommandRoundTrip(c: Command)
    requires ValidCommand(c)
    ensures DecodeCommand(EncodeCommand(c)) == Some(c)
  {
    ListRoundTrip(c.arguments, EncodeText, DecodeText);
    assert EncodeCommand(c).fields.Keys == COMMAND_KEYS;
  }

  const GATE_KEYS := {GateId, Commands}

  function EncodeGate(g: Gate): Json {
    Obj(map[GateId := Str(g.id), Commands := List(EncodeAll(g.commands, EncodeCommand))])
  }

  function DecodeGate(j: Json): (g: Option<Gate>)
    ensures g.Some? ==> ValidGate(g.value)
  {
    if !j.Obj? || j.fields.Keys != GATE_KEYS || !j.fields[Commands].List? then None
    else
      var items := j.fields[Commands].items;
      var id, commands := DecodeText(j.fields[GateId]), DecodeAll(items, |items|, DecodeCommand);
      if id.None? || commands.None? || commands.value == [] then None else Some(Gate(id.value, commands.value))
  }

  lemma GateRoundTrip(g: Gate)
    requires ValidGate(g)
    ensures DecodeGate(EncodeGate(g)) == Some(g)
  {
    forall i | 0 <= i < |g.commands|
      ensures DecodeCommand(EncodeCommand(g.commands[i])) == Some(g.commands[i])
    {
      CommandRoundTrip(g.commands[i]);
    }
    ListRoundTrip(g.commands, EncodeCommand, DecodeCommand);
    assert EncodeGate(g).fields.Keys == GATE_KEYS;
  }

  /** Commands and gates are read from no other form than their own. */
  lemma CommandIsReadFromItsForm(j: Json, c: Command)
    requires DecodeCommand(j) == Some(c)
    ensures j == EncodeCommand(c)
  {
    var items := j.fields[CommandLine].items;
    assert items == EncodeAll(c.arguments, EncodeText);
    assert j.fields == EncodeCommand(c).fields;
  }

  lemma GateIsReadFromItsForm(j: Json, g: Gate)
    requires DecodeGate(j) == Some(g)
    ensures j == EncodeGate(g)
  {
    var items := j.fields[Commands].items;
    forall i | 0 <= i < |items|
      ensures items[i] == EncodeCommand(g.commands[i])
    {
      CommandIsReadFromItsForm(items[i], g.commands[i]);
    }
    assert items == EncodeAll(g.commands, EncodeCommand);
    assert j.fields == EncodeGate(g).fields;
  }

  // ---- Writing ----

  function FailedIds(gates: seq<Gate>, n: nat): seq<string>
    requires n <= |gates|
  {
    if n == 0 then [] else FailedIds(gates, n - 1) + if gates[n - 1].Passes() then [] else [gates[n - 1].id]
  }

  function WithOutcome(g: Gate): Json {
    Obj(EncodeGate(g).fields[Passed := Bool(g.Passes())])
  }

  function FailedField<Body>(r: Record<Body>): Json {
    List(EncodeAll(FailedIds(r.gates, |r.gates|), EncodeText))
  }

  function IsReady<Body>(r: Record<Body>): bool {
    FailedIds(r.gates, |r.gates|) == []
  }

  function ToDocument<Body>(f: Format<Body>, r: Record<Body>): Document {
    f.encode(r.body)[Gates := List(EncodeAll(r.gates, WithOutcome))]
      [FailedGates := FailedField(r)][Ready := Bool(IsReady(r))][Checksum := Str(f.digest(r))]
  }

  method WriteRecord<Body>(f: Format<Body>, r: Record<Body>) returns (payload: Document)
    ensures payload == ToDocument(f, r)
  {
    var gates: seq<Json> := EncodeAll(r.gates, EncodeGate);
    var failed: seq<string> := [];
    for i := 0 to |r.gates|
      invariant |gates| == |r.gates| && failed == FailedIds(r.gates, i)
      invariant forall k :: 0 <= k < |gates| ==> gates[k] == if k < i then WithOutcome(r.gates[k]) else EncodeGate(r.gates[k])
    {
      gates := gates[i := Obj(gates[i].fields[Passed := Bool(r.gates[i].Passes())])];
      if !r.gates[i].Passes() { failed := failed + [r.gates[i].id]; }
    }
    assert gates == EncodeAll(r.gates, WithOutcome);
    payload := f.encode(r.body)[Gates := List(gates)];
    payload := payload[FailedGates := List(EncodeAll(failed, EncodeText))];
    payload := payload[Ready := Bool(failed == [])];
    payload := payload[Checksum := Str(f.digest(r))];
  }

  // ---- Reading ----

  /** A popped field: a missing one reads as null. */
  function Popped(fields: map<Key, Json>, key: Key): Json {
    if key in fields then fields[key] else Null
  }

  function CleanGate(raw: Json): Json {
    if raw.Obj? then Obj(raw.fields - {Passed}) else raw
  }

  /** The outcomes persisted with the first `n` gates, which only objects have. */
  function Outcomes(raw: seq<Json>, n: nat): seq<Json>
    requires n <= |raw|
  {
    if n == 0 then []
    else Outcomes(raw, n - 1) + if raw[n - 1].Obj? then [Popped(raw[n - 1].fields, Passed)] else []
  }

  /** The document without its derived fields. */
  function Cleaned(d: Document): Document {
    var payload := d - DERIVED;
    if Gates in payload && payload[Gates].List? then payload[Gates := List(EncodeAll(payload[Gates].items, CleanGate))]
    else payload
  }

  function Validated<Body>(f: Format<Body>, payload: Document): (r: Option<Record<Body>>)
    ensures r.Some? ==> ValidRecord(f, r.value)
  {
    if Gates !in payload || !payload[Gates].List? then None
    else
      var items := payload[Gates].items;
      var body, gates := f.decode(payload - {Gates}), DecodeAll(items, |items|, DecodeGate);
      if body.None? || gates.None? || |gates.value| != |f.gateIds| then None
      else if exists i :: 0 <= i < |f.gateIds| && gates.value[i].id != f.gateIds[i] then None
      else Some(Record(body.value, gates.value))
  }

  /** The equality of the language: a number equals a truth value when it is one or zero. */
  predicate EqualsOutcome(j: Json, passed: bool) {
    || (j.Bool? && j.value == passed)
    || (j.Num? && j.number == if passed then 1.0 else 0.0)
  }

  predicate EqualsTexts(j: Json, texts: seq<string>) {
    j.List? && |j.items| == |texts| && forall i :: 0 <= i < |texts| ==> j.items[i] == Str(texts[i])
  }

  predicate OutcomesAgree(persisted: seq<Json>, gates: seq<Gate>) {
    |persisted| == |gates| && forall i :: 0 <= i < |gates| ==> EqualsOutcome(persisted[i], gates[i].Passes())
  }

  function PersistedOutcomes(d: Document): seq<Json> {
    if Gates in d && d[Gates].List? then Outcomes(d[Gates].items, |d[Gates].items|) else []
  }

  /** The derived fields at the top are right, or null, or missing. */
  predicate TopAgrees<Body>(f: Format<Body>, d: Document, r: Record<Body>) {
    && (Popped(d, FailedGates).Null? || EqualsTexts(Popped(d, FailedGates), FailedIds(r.gates, |r.gates|)))
    && (Popped(d, Ready).Null? || Popped(d, Ready) == Bool(IsReady(r)))
    && (Popped(d, Checksum).Null? || Popped(d, Checksum) == Str(f.digest(r)))
  }

  /** The persisted derivatives, as far as there are any, agree with the record. */
  predicate Consistent<Body>(f: Format<Body>, d: Document, r: Record<Body>) {
    && TopAgrees(f, d, r)
    && (PersistedOutcomes(d) == [] || OutcomesAgree(PersistedOutcomes(d), r.gates))
  }

  function Parsed<Body>(f: Format<Body>, d: Document): Option<Record<Body>> {
    var r := Validated(f, Cleaned(d));
    if r.Some? && Consistent(f, d, r.value) then r else None
  }

  method ParseRecord<Body>(f: Format<Body>, raw: Document) returns (r: Option<Record<Body>>)
    ensures r == Parsed(f, raw)
  {
    var failed, ready, checksum := Popped(raw, FailedGates), Popped(raw, Ready), Popped(raw, Checksum);
    var payload := raw - {FailedGates} - {Ready} - {Checksum};
    assert payload == raw - DERIVED;
    var outcomes: seq<Json> := [];
    if Gates in payload && payload[Gates].List? {
      var items, clean := payload[Gates].items, [];
      for i := 0 to |items|
        invariant |clean| == i && outcomes == Outcomes(items, i)
        invariant forall k :: 0 <= k < i ==> clean[k] == CleanGate(items[k])
      {
        if items[i].Obj? {
          outcomes := outcomes + [Popped(items[i].fields, Passed)];
          clean := clean + [Obj(items[i].fields - {Passed})];
        } else {
          clean := clean + [items[i]];
        }
      }
      assert clean == EncodeAll(items, CleanGate);
      payload := payload[Gates := List(clean)];
    }
    assert outcomes == PersistedOutcomes(raw);
    r := Validated(f, payload);
    if r.Some? {
      var gates := r.value.gates;
      var expected := FailedIds(gates, |gates|);
      if !failed.Null? && !EqualsTexts(failed, expected) {
        r := None;
      } else if !ready.Null? && ready != Bool(expected == []) {
        r := None;
      } else if !checksum.Null? && checksum != Str(f.digest(r.value)) {
        r := None;
      } else if outcomes != [] && !OutcomesAgree(outcomes, gates) {
        r := None;
      }
    }
  }

  // ---- Results ----

  /** Every command of the gate has exited with zero. */
  predicate AllExitZero(g: Gate) {
    forall k :: 0 <= k < |g.commands| ==> g.commands[k].exitCode == 0
  }

  /** `at` are the places of the first `n` gates with a command that did not exit with zero, in order, and `ids` their ids. */
  predicate MarksFailed(gates: seq<Gate>, n: nat, ids: seq<string>, at: seq<nat>)
    requires n <= |gates|
  {
    && |at| == |ids| && (forall i, k :: 0 <= i < k < |at| ==> at[i] < at[k])
    && (forall i :: 0 <= i < |at| ==> at[i] < n && !AllExitZero(gates[at[i]]) && ids[i] == gates[at[i]].id)
    && (forall g: nat :: g < n && !AllExitZero(gates[g]) ==> g in at)
  }

  lemma {:induction false} FailedIdsAreInOrder(gates: seq<Gate>, n: nat) returns (at: seq<nat>)
    requires n <= |gates|
    ensures MarksFailed(gates, n, FailedIds(gates, n), at)
  {
    at := [];
    if n > 0 {
      at := FailedIdsAreInOrder(gates, n - 1);
      if !AllExitZero(gates[n - 1]) { at := at + [n - 1]; }
    }
  }

  /** The gates with a command that did not exit with zero, in order and by id. */
  ghost predicate ListsFailed(ids: seq<string>, gates: seq<Gate>) {
    exists at: seq<nat> :: MarksFailed(gates, |gates|, ids, at)
  }

  /** What the written document says at each gate: whether all its commands have exited with zero. */
  lemma GatesTellExitCodes<Body>(f: Format<Body>, r: Record<Body>, i: nat)
    requires i < |r.gates|
    ensures
      var d := ToDocument(f, r);
      && d[Gates].List? && |d[Gates].items| == |r.gates| && d[Gates].items[i].Obj?
      && Passed in d[Gates].items[i].fields && d[Gates].items[i].fields[Passed] == Bool(AllExitZero(r.gates[i]))
  {
    assert ToDocument(f, r)[Gates] == List(EncodeAll(r.gates, WithOutcome));
  }

  lemma ReadyTellsExitCodes<Body>(r: Record<Body>)
    ensures ListsFailed(FailedIds(r.gates, |r.gates|), r.gates)
    ensures IsReady(r) <==> forall i :: 0 <= i < |r.gates| ==> AllExitZero(r.gates[i])
  {
    var ids := FailedIds(r.gates, |r.gates|);
    var at := FailedIdsAreInOrder(r.gates, |r.gates|);
    assert MarksFailed(r.gates, |r.gates|, ids, at);
    if ids != [] {
      assert !AllExitZero(r.gates[at[0]]);
    }
  }

  /** And at its top: which gates have a command that did not, in order, and whether there is none. */
  lemma DocumentTellsExitCodes<Body>(f: Format<Body>, r: Record<Body>)
    ensures ToDocument(f, r)[Ready] == Bool(forall i :: 0 <= i < |r.gates| ==> AllExitZero(r.gates[i]))
    ensures exists ids :: ToDocument(f, r)[FailedGates] == List(EncodeAll(ids, EncodeText)) && ListsFailed(ids, r.gates)
  {
    DocumentAgrees(f, r);
    ReadyTellsExitCodes(r);
    assert ToDocument(f, r)[FailedGates] == List(EncodeAll(FailedIds(r.gates, |r.gates|), EncodeText));
  }

  /** A document of `r` in which the derived fields may hold anything, or be missing. */
  predicate Derives<Body>(f: Format<Body>, r: Record<Body>, d: Document) {
    && d - DERIVED - {Gates} == f.encode(r.body)
    && Gates in d && d[Gates].List? && |d[Gates].items| == |r.gates|
    && forall i :: 0 <= i < |r.gates| ==> d[Gates].items[i].Obj? && CleanGate(d[Gates].items[i]) == EncodeGate(r.gates[i])
  }

  lemma {:induction false} OutcomesOfObjects(raw: seq<Json>, n: nat)
    requires n <= |raw| && forall i :: 0 <= i < |raw| ==> raw[i].Obj?
    ensures |Outcomes(raw, n)| == n
    ensures forall i :: 0 <= i < n ==> Outcomes(raw, n)[i] == Popped(raw[i].fields, Passed)
  {
    if n > 0 {
      OutcomesOfObjects(raw, n - 1);
    }
  }

  lemma DerivedDocumentDecodes<Body(!new)>(f: Format<Body>, r: Record<Body>, d: Document)
    requires ValidFormat(f) && ValidRecord(f, r) && Derives(f, r, d)
    ensures Validated(f, Cleaned(d)) == Some(r)
  {
    var payload := Cleaned(d);
    var items := payload[Gates].items;
    assert payload - {Gates} == d - DERIVED - {Gates};
    forall i | 0 <= i < |items|
      ensures DecodeGate(items[i]) == Some(r.gates[i])
    {
      GateRoundTrip(r.gates[i]);
    }
    var gates := DecodeAll(items, |items|, DecodeGate);
    assert gates.value == r.gates;
  }

  /** Every gate carries an outcome, and the right one. */
  predicate GatesAgree(items: seq<Json>, gates: seq<Gate>) {
    && |items| == |gates|
    && forall i :: 0 <= i < |gates| ==>
         && items[i].Obj? && Passed in items[i].fields
         && EqualsOutcome(items[i].fields[Passed], gates[i].Passes())
  }

  lemma OutcomesAgreeExactlyWhen(items: seq<Json>, gates: seq<Gate>)
    requires |items| == |gates| && forall i :: 0 <= i < |items| ==> items[i].Obj?
    ensures OutcomesAgree(Outcomes(items, |items|), gates) <==> GatesAgree(items, gates)
  {
    OutcomesOfObjects(items, |items|);
    var outcomes := Outcomes(items, |items|);
    forall i | 0 <= i < |gates|
      ensures EqualsOutcome(outcomes[i], gates[i].Passes()) <==>
        Passed in items[i].fields && EqualsOutcome(items[i].fields[Passed], gates[i].Passes())
    {
    }
  }

  /**
   * What may stand in the derived fields: at the top the right value, null or nothing at all; at a gate its outcome,
   * which a number may also express, but neither null nor nothing.
   */
  lemma AcceptedExactlyWhen<Body(!new)>(f: Format<Body>, r: Record<Body>, d: Document)
    requires ValidFormat(f) && ValidRecord(f, r) && Derives(f, r, d)
    ensures Parsed(f, d) == if TopAgrees(f, d, r) && GatesAgree(d[Gates].items, r.gates) then Some(r) else None
  {
    DerivedDocumentDecodes(f, r, d);
    OutcomesOfObjects(d[Gates].items, |r.gates|);
    OutcomesAgreeExactlyWhen(d[Gates].items, r.gates);
  }

  lemma DocumentDerives<Body(!new)>(f: Format<Body>, r: Record<Body>)
    requires ValidFormat(f)
    ensures Derives(f, r, ToDocument(f, r))
  {
    var d := ToDocument(f, r);
    assert f.encode(r.body).Keys !! DERIVED + {Gates};
    assert d - DERIVED - {Gates} == f.encode(r.body);
    forall i | 0 <= i < |r.gates|
      ensures CleanGate(d[Gates].items[i]) == EncodeGate(r.gates[i])
    {
      assert WithOutcome(r.gates[i]).fields - {Passed} == EncodeGate(r.gates[i]).fields;
    }
  }

  lemma DocumentAgrees<Body>(f: Format<Body>, r: Record<Body>)
    ensures var d := ToDocument(f, r);
      && TopAgrees(f, d, r) && GatesAgree(d[Gates].items, r.gates)
      && d[FailedGates] == FailedField(r) && d[Ready] == Bool(IsReady(r)) && d[Checksum] == Str(f.digest(r))
  {
  }

  /** What a record must have: the prescribed gates in order, each with commands that are named, not empty and timed. */
  predicate Proper<Body>(f: Format<Body>, r: Record<Body>) {
    && |r.gates| == |f.gateIds|
    && forall i :: 0 <= i < |r.gates| ==>
         && r.gates[i].id == f.gateIds[i] && r.gates[i].commands != []
         && forall k :: 0 <= k < |r.gates[i].commands| ==>
              var c := r.gates[i].commands[k];
              1 <= |c.title| <= 100 && c.arguments != [] && "" !in c.arguments && 0 <= c.durationMs
  }

  lemma ProperIsValid<Body>(f: Format<Body>, r: Record<Body>)
    ensures Proper(f, r) <==> ValidRecord(f, r)
  {
  }

  /** Reading what was written gives the record back, whatever its gates and however many commands they have. */
  lemma RoundTrip<Body(!new)>(f: Format<Body>, r: Record<Body>)
    requires ValidFormat(f) && Proper(f, r)
    ensures Parsed(f, ToDocument(f, r)) == Some(r)
  {
    ProperIsValid(f, r);
    DocumentDerives(f, r);
    DocumentAgrees(f, r);
    AcceptedExactlyWhen(f, r, ToDocument(f, r));
  }

  lemma TopLevelChange<Body(!new)>(f: Format<Body>, r: Record<Body>, d: Document)
    requires ValidFormat(f) && ValidRecord(f, r)
    requires d - DERIVED == ToDocument(f, r) - DERIVED
    ensures Derives(f, r, d) && GatesAgree(d[Gates].items, r.gates)
    ensures Parsed(f, d) == if TopAgrees(f, d, r) then Some(r) else None
  {
    var written := ToDocument(f, r);
    DocumentDerives(f, r);
    DocumentAgrees(f, r);
    assert Gates in d - DERIVED && d[Gates] == (d - DERIVED)[Gates] == written[Gates];
    assert d - DERIVED - {Gates} == written - DERIVED - {Gates};
    AcceptedExactlyWhen(f, r, d);
  }

  /** The derived fields at the top can be dropped, in any combination. */
  lemma DroppedFieldsAreAccepted<Body(!new)>(f: Format<Body>, r: Record<Body>, dropped: set<Key>)
    requires ValidFormat(f) && ValidRecord(f, r) && dropped <= DERIVED
    ensures Parsed(f, ToDocument(f, r) - dropped) == Some(r)
  {
    var d := ToDocument(f, r);
    DocumentAgrees(f, r);
    assert d - dropped - DERIVED == d - DERIVED;
    TopLevelChange(f, r, d - dropped);
  }

  /** A list of texts is equal to another exactly when it is the same list. */
  lemma EqualTextsAreTheSame(j: Json, texts: seq<string>)
    ensures EqualsTexts(j, texts) <==> j == List(EncodeAll(texts, EncodeText))
  {
    if EqualsTexts(j, texts) {
      assert j.items == EncodeAll(texts, EncodeText);
    }
  }

  /** Changing a derived field at the top to anything but its own value or null is noticed. */
  lemma TopLevelTampering<Body(!new)>(f: Format<Body>, r: Record<Body>, key: Key, value: Json)
    requires ValidFormat(f) && ValidRecord(f, r) && key in DERIVED
    ensures Parsed(f, ToDocument(f, r)[key := value]).Some? <==> value.Null? || value == ToDocument(f, r)[key]
  {
    var d := ToDocument(f, r);
    DocumentAgrees(f, r);
    EqualTextsAreTheSame(value, FailedIds(r.gates, |r.gates|));
    assert d[key := value] - DERIVED == d - DERIVED;
    TopLevelChange(f, r, d[key := value]);
  }

  /** The document with the outcome of gate `i` replaced, or removed. */
  function GateTampered(d: Document, i: nat, value: Option<Json>): Document
    requires Gates in d && d[Gates].List? && i < |d[Gates].items| && d[Gates].items[i].Obj?
  {
    var fields := d[Gates].items[i].fields;
    var gate := if value.Some? then fields[Passed := value.value] else fields - {Passed};
    d[Gates := List(d[Gates].items[i := Obj(gate)])]
  }

  lemma TamperedDerives<Body(!new)>(f: Format<Body>, r: Record<Body>, i: nat, value: Option<Json>)
    requires ValidFormat(f) && i < |r.gates|
    ensures Derives(f, r, GateTampered(ToDocument(f, r), i, value))
  {
    var d := ToDocument(f, r);
    DocumentDerives(f, r);
    var t := GateTampered(d, i, value);
    assert t - DERIVED - {Gates} == d - DERIVED - {Gates};
    assert t[Gates].items[i].fields - {Passed} == d[Gates].items[i].fields - {Passed};
  }

  lemma TamperedAgrees<Body>(f: Format<Body>, r: Record<Body>, i: nat, value: Option<Json>)
    requires i < |r.gates|
    ensures var t := GateTampered(ToDocument(f, r), i, value);
      && TopAgrees(f, t, r)
      && (GatesAgree(t[Gates].items, r.gates) <==> value.Some? && EqualsOutcome(value.value, r.gates[i].Passes()))
  {
    DocumentAgrees(f, r);
    var t := GateTampered(ToDocument(f, r), i, value);
    assert t[Gates].items[i].Obj?;
  }

  /**
   * A changed outcome of a gate is noticed exactly when it does not equal the outcome; so the number one passes for
   * true and zero for false, while a missing outcome is refused.
   */
  lemma GateTampering<Body(!new)>(f: Format<Body>, r: Record<Body>, i: nat, value: Option<Json>)
    requires ValidFormat(f) && ValidRecord(f, r) && i < |r.gates|
    ensures
      var passes := AllExitZero(r.gates[i]);
      Parsed(f, GateTampered(ToDocument(f, r), i, value)) ==
        if value == Some(Bool(passes)) || value == Some(Num(if passes then 1.0 else 0.0)) then Some(r) else None
  {
    TamperedDerives(f, r, i, value);
    TamperedAgrees(f, r, i, value);
    AcceptedExactlyWhen(f, r, GateTampered(ToDocument(f, r), i, value));
  }

  /**
   * Whatever document is read, the record is a proper one, and the gates of the document are exactly its gates, apart
   * from their outcomes.
   */
  lemma WhatIsReadIsProper<Body(!new)>(f: Format<Body>, d: Document)
    requires Parsed(f, d).Some?
    ensures
      var r := Parsed(f, d).value;
      && Proper(f, r) && Gates in d && d[Gates].List? && |d[Gates].items| == |r.gates|
      && forall i :: 0 <= i < |r.gates| ==> CleanGate(d[Gates].items[i]) == EncodeGate(r.gates[i])
  {
    var r := Parsed(f, d).value;
    var items := Cleaned(d)[Gates].items;
    ProperIsValid(f, r);
    forall i | 0 <= i < |r.gates|
      ensures items[i] == EncodeGate(r.gates[i])
    {
      GateIsReadFromItsForm(items[i], r.gates[i]);
    }
  }

  /** Whatever else is changed, the checksum of the original leaves no other record to read. */
  lemma ChecksumPinsTheRecord<Body(!new)>(f: Format<Body>, r: Record<Body>, d: Document)
    requires forall a: Record<Body>, b: Record<Body> :: f.digest(a) == f.digest(b) ==> a == b
    requires Popped(d, Checksum) == Str(f.digest(r)) && Parsed(f, d).Some?
    ensures Parsed(f, d) == Some(r)
  {
  }
}
