/** The single writer of the audit store: it validates an entry, numbers it, links it and stores it. */
module AuditWriter {
  import opened Text
  import opened HashChain
  import opened SecretNames
  import KeyOrder

  /** What the model does not fix: the denylist on values and the hash function. */
  datatype Env = Env(secretValue: string -> bool, hash: HashFunction)

  const ENTRY_FIELDS: seq<string> := [
    "entry_number", "importer_of_record_id", "port_of_entry_code", "mode_of_transport", "carrier_code",
    "conveyance_name", "bill_of_lading_number", "air_waybill_number", "country_of_origin_code",
    "goods_description", "quantity", "quantity_uom", "declared_value_usd", "arrival_date"]

  /** The name denylist spares the names of the entry's own fields. */
  lemma FieldNamesAreSafe()
    ensures forall f :: f in ENTRY_FIELDS ==> !SecretName(f)
  {
    hide SecretName;
    EntryNumber();
    ImporterOfRecordId();
    PortOfEntryCode();
    ModeOfTransport();
    CarrierCode();
    ConveyanceName();
    BillOfLadingNumber();
    AirWaybillNumber();
    CountryOfOriginCode();
    GoodsDescription();
    Quantity();
    QuantityUom();
    DeclaredValueUsd();
    ArrivalDate();
    assert forall i :: 0 <= i < |ENTRY_FIELDS| ==> !SecretName(ENTRY_FIELDS[i]);
  }

  datatype Actor = Specialist(id: string) | Ai | System(onBehalfOf: string)

  datatype AppendValue = AppendValue(
    fieldName: string,
    before: Option<string>, beforeOrigin: Option<Origin>,
    after: Option<string>, afterOrigin: Option<Origin>)

  datatype AppendInput = AppendInput(
    caseId: string, exceptionId: Option<string>, recommendationId: Option<string>, decisionId: Option<string>,
    action: Action, actor: Actor, beforeState: Option<string>, afterState: string,
    reason: Option<string>, values: seq<AppendValue>, requestId: Option<string>)

  datatype WriteError = Invalid | ForbiddenContent | SequenceConflict | RepeatedField

  // ---- validation ---------------------------------------------------------

  const REASON_MIN := 10

  predicate IsCreation(a: Action) {
    a.EntryReceived? || a.ExceptionOpened?
  }

  predicate ReasonRequired(a: Action) {
    a.RecommendationEditedAndApproved? || a.RecommendationRejected?
  }

  predicate ReasonForbidden(a: Action) {
    !ReasonRequired(a) && !a.RecommendationApproved?
  }

  predicate ActorOk(actor: Actor) {
    match actor
    case Specialist(id) => id != ""
    case Ai => true
    case System(id) => id != ""
  }

  function ActorTypeOf(actor: Actor): ActorType {
    match actor
    case Specialist(_) => SpecialistActor
    case Ai => AiActor
    case System(_) => SystemActor
  }

  function ActorIdOf(actor: Actor): Option<string> {
    match actor
    case Specialist(id) => Some(id)
    case Ai => None
    case System(id) => Some(id)
  }

  predicate SecretSide(env: Env, side: Option<string>) {
    side.Some? && env.secretValue(side.value)
  }

  /** The stored form of a value row; `changed` compares the two sides verbatim. */
  function Recorded(v: AppendValue): AuditValue {
    AuditValue(v.fieldName, v.before, v.beforeOrigin, v.after, v.afterOrigin, v.before != v.after)
  }

  /** The stored row is the row given, marked as changed exactly when its two sides differ verbatim. */
  predicate Stores(r: AuditValue, v: AppendValue) {
    && r.fieldName == v.fieldName
    && r.before == v.before && r.beforeOrigin == v.beforeOrigin
    && r.after == v.after && r.afterOrigin == v.afterOrigin
    && (r.changed <==> v.before != v.after)
  }

  predicate StoresAll(rs: seq<AuditValue>, vs: seq<AppendValue>) {
    |rs| == |vs| && forall i :: 0 <= i < |rs| ==> Stores(rs[i], vs[i])
  }

  /** The checks on one value row, in the writer's order: names before membership, secrets before shape. */
  function CheckValue(env: Env, v: AppendValue): Result<AuditValue, WriteError> {
    if SecretName(v.fieldName) then Err(ForbiddenContent)
    else if v.fieldName !in ENTRY_FIELDS then Err(Invalid)
    else if SecretSide(env, v.before) || SecretSide(env, v.after) then Err(ForbiddenContent)
    else if v.before.None? && v.after.None? then Err(Invalid)
    else if v.before.Some? && v.beforeOrigin.None? then Err(Invalid)
    else if v.after.Some? && v.afterOrigin.None? then Err(Invalid)
    else Ok(Recorded(v))
  }

  function NormaliseValues(env: Env, vs: seq<AppendValue>): Result<seq<AuditValue>, WriteError> {
    if vs == [] then Ok([])
    else match CheckValue(env, vs[0]) {
      case Err(e) => Err(e)
      case Ok(r) =>
        match NormaliseValues(env, vs[1..]) {
          case Err(e) => Err(e)
          case Ok(rs) => Ok([r] + rs)
        }
    }
  }

  /** The whole check made before any statement is issued; it yields the rows to store. */
  function Validate(env: Env, entry: AppendInput): Result<seq<AuditValue>, WriteError> {
    if !ActorOk(entry.actor) then Err(Invalid)
    else if entry.afterState == "" then Err(Invalid)
    else if entry.beforeState.None? && !IsCreation(entry.action) then Err(Invalid)
    else if ReasonRequired(entry.action) && (entry.reason.None? || Utf16Length(Trim(entry.reason.value)) < REASON_MIN) then
      Err(Invalid)
    else if ReasonForbidden(entry.action) && entry.reason.Some? then Err(Invalid)
    else NormaliseValues(env, entry.values)
  }

  /** A row the writer stores: a real field, no secret, and a provenance for every value present. */
  predicate RowAcceptable(env: Env, v: AppendValue) {
    && v.fieldName in ENTRY_FIELDS && !SecretName(v.fieldName)
    && (v.before.Some? || v.after.Some?)
    && (v.before.Some? ==> v.beforeOrigin.Some? && !env.secretValue(v.before.value))
    && (v.after.Some? ==> v.afterOrigin.Some? && !env.secretValue(v.after.value))
  }

  /** A person is named, except for the AI; there is a state before it unless something is created; and the three decisions
      alone have a reason, which an edit and a rejection must give in at least ten units. */
  predicate HeaderAcceptable(entry: AppendInput) {
    && (match entry.actor
        case Specialist(id) => id != ""
        case Ai => true
        case System(id) => id != "")
    && entry.afterState != ""
    && (entry.action in {EntryReceived, ExceptionOpened} || entry.beforeState.Some?)
    && match entry.action
       case RecommendationEditedAndApproved => entry.reason.Some? && Utf16Length(Trim(entry.reason.value)) >= 10
       case RecommendationRejected => entry.reason.Some? && Utf16Length(Trim(entry.reason.value)) >= 10
       case RecommendationApproved => true
       case _ => entry.reason.None?
  }

  /** The rows pass exactly when each of them is acceptable, and then they are stored one for one. */
  lemma {:induction false} NormaliseValuesIff(env: Env, vs: seq<AppendValue>)
    ensures NormaliseValues(env, vs).Ok? <==> forall i :: 0 <= i < |vs| ==> RowAcceptable(env, vs[i])
    ensures NormaliseValues(env, vs).Ok? ==>
              var rs := NormaliseValues(env, vs).value;
              StoresAll(rs, vs) && forall i :: 0 <= i < |vs| ==> rs[i] == Recorded(vs[i])
  {
    if vs != [] {
      var t := vs[1..];
      NormaliseValuesIff(env, t);
      assert forall i :: 0 <= i < |t| ==> t[i] == vs[i + 1];
      assert forall i :: 1 <= i < |vs| ==> vs[i] == t[i - 1];
    }
  }

  /** An entry is written exactly when its header and every row of it are acceptable. */
  lemma ValidateIff(env: Env, entry: AppendInput)
    ensures Validate(env, entry).Ok? <==>
            HeaderAcceptable(entry) && forall i :: 0 <= i < |entry.values| ==> RowAcceptable(env, entry.values[i])
    ensures Validate(env, entry).Ok? ==>
              var rs := Validate(env, entry).value;
              StoresAll(rs, entry.values) && forall i :: 0 <= i < |rs| ==> rs[i] == Recorded(entry.values[i])
  {
    NormaliseValuesIff(env, entry.values);
  }

  /** A name or a value that looks like a secret. A value is looked at only in a row about an entry field. */
  predicate LooksSecret(env: Env, v: AppendValue) {
    SecretName(v.fieldName) || (v.fieldName in ENTRY_FIELDS && (SecretSide(env, v.before) || SecretSide(env, v.after)))
  }

  /** The error is that of the first row that is not acceptable: forbidden content if it looks like a secret, and
      otherwise an invalid entry. */
  lemma {:induction false} FirstRefusal(env: Env, vs: seq<AppendValue>) returns (i: nat)
    requires NormaliseValues(env, vs).Err?
    ensures i < |vs| && !RowAcceptable(env, vs[i]) && forall j :: 0 <= j < i ==> RowAcceptable(env, vs[j])
    ensures NormaliseValues(env, vs).error == if LooksSecret(env, vs[i]) then ForbiddenContent else Invalid
  {
    hide SecretName, Recorded;
    if CheckValue(env, vs[0]).Err? {
      i := 0;
    } else {
      var k := FirstRefusal(env, vs[1..]);
      i := k + 1;
      assert forall j :: 1 <= j < i ==> vs[j] == vs[1..][j - 1];
    }
  }

  /** A header that is not acceptable makes the entry invalid, whatever its rows are. */
  lemma HeaderFirst(env: Env, entry: AppendInput)
    ensures !HeaderAcceptable(entry) ==> Validate(env, entry) == Err(Invalid)
    ensures HeaderAcceptable(entry) ==> Validate(env, entry) == NormaliseValues(env, entry.values)
  {
    hide NormaliseValues;
  }

  /** Rows that are well formed and about entry fields can only be refused for a secret value. */
  lemma {:induction false} OnlySecretsRefuse(env: Env, vs: seq<AppendValue>)
    requires forall i :: 0 <= i < |vs| ==>
               vs[i].fieldName in ENTRY_FIELDS && vs[i].after.Some? && vs[i].afterOrigin.Some?
               && (vs[i].before.Some? ==> vs[i].beforeOrigin.Some?)
    ensures NormaliseValues(env, vs).Err? ==> NormaliseValues(env, vs).error == ForbiddenContent
    ensures NormaliseValues(env, vs) == Err(ForbiddenContent) <==>
            exists i :: 0 <= i < |vs| && (SecretSide(env, vs[i].before) || SecretSide(env, vs[i].after))
  {
    hide SecretName, Recorded;
    NormaliseValuesIff(env, vs);
    FieldNamesAreSafe();
    if vs != [] {
      var t := vs[1..];
      assert forall i :: 0 <= i < |t| ==> t[i] == vs[i + 1];
      OnlySecretsRefuse(env, t);
      assert forall i :: 1 <= i < |vs| ==> vs[i] == t[i - 1];
    }
  }

  // ---- numbering and linking ----------------------------------------------

  function MaxSequence(rows: seq<AuditEntry>): nat {
    if rows == [] then 0 else
      var m, n := MaxSequence(rows[..|rows| - 1]), rows[|rows| - 1].payload.sequence;
      if m < n then n else m
  }

  /** The row numbered `n`. */
  function RowNumbered(rows: seq<AuditEntry>, n: nat): Option<AuditEntry> {
    if rows == [] then None
    else if rows[|rows| - 1].payload.sequence == n then Some(rows[|rows| - 1])
    else RowNumbered(rows[..|rows| - 1], n)
  }

  function PayloadOf(entry: AppendInput, values: seq<AuditValue>, n: nat, now: string): Payload {
    Payload(entry.caseId, n, entry.action, ActorTypeOf(entry.actor), ActorIdOf(entry.actor), now,
            entry.exceptionId, entry.recommendationId, entry.decisionId,
            entry.beforeState, entry.afterState, entry.reason, entry.requestId, values)
  }

  /** The payload says what the caller gave, the actor by type and id and the rows as they are stored. */
  predicate Reports(p: Payload, entry: AppendInput) {
    && p.caseId == entry.caseId && p.action == entry.action
    && (match entry.actor
        case Specialist(id) => p.actorType == SpecialistActor && p.actorId == Some(id)
        case Ai => p.actorType == AiActor && p.actorId == None
        case System(id) => p.actorType == SystemActor && p.actorId == Some(id))
    && p.exceptionId == entry.exceptionId && p.recommendationId == entry.recommendationId
    && p.decisionId == entry.decisionId
    && p.beforeState == entry.beforeState && p.afterState == entry.afterState
    && p.reason == entry.reason && p.requestId == entry.requestId
    && StoresAll(p.values, entry.values)
  }

  /** The payload of an accepted entry reports it, under its number and at its time. */
  lemma PayloadReports(env: Env, entry: AppendInput, n: nat, now: string)
    requires Validate(env, entry).Ok?
    ensures var p := PayloadOf(entry, Validate(env, entry).value, n, now);
            Reports(p, entry) && p.sequence == n && p.occurredAt == now
  {
    hide Validate, Stores;
    ValidateIff(env, entry);
  }

  function MakeEntry(env: Env, payload: Payload, prev: Digest): AuditEntry {
    AuditEntry(payload, prev, EntryHash(env.hash, payload, prev))
  }

  /** The link to the entry before number `n`; `None` when the chain has a hole there. */
  function PrevHash(rows: seq<AuditEntry>, n: nat): Option<Digest>
    requires n > 0
  {
    if n == 1 then Some(ZERO_HASH)
    else match RowNumbered(rows, n - 1) {
      case None => None
      case Some(e) => Some(e.hash)
    }
  }

  /** The key of the value rows: an entry holds at most one row for a field. */
  predicate OneRowPerField(values: seq<AuditValue>) {
    KeyOrder.DistinctKeys(RowName, values)
  }

  /** One row for each field, each marked as changed exactly when its two sides differ. */
  predicate RowsSound(values: seq<AuditValue>) {
    OneRowPerField(values) && forall i :: 0 <= i < |values| ==> (values[i].changed <==> values[i].before != values[i].after)
  }

  /** The entry that `append` adds to a case's rows. */
  function NextEntry(env: Env, rows: seq<AuditEntry>, entry: AppendInput, now: string): Result<AuditEntry, WriteError> {
    match Validate(env, entry)
    case Err(e) => Err(e)
    case Ok(values) =>
      var n := MaxSequence(rows) + 1;
      match PrevHash(rows, n) {
        case None => Err(SequenceConflict)
        case Some(prev) =>
          if !OneRowPerField(values) then Err(RepeatedField)
          else Ok(MakeEntry(env, PayloadOf(entry, values, n, now), prev))
      }
  }

  /** On a chained trail the highest number is the length, and the row it names is the last one. */
  lemma {:induction false} ChainedNumbers(h: HashFunction, rows: seq<AuditEntry>)
    requires WellChained(h, rows)
    ensures MaxSequence(rows) == |rows|
    ensures PrevHash(rows, |rows| + 1) == Some(LastHash(rows))
    ensures RowNumbered(rows, |rows| + 1).None?
  {
    if rows != [] {
      var m := |rows| - 1;
      ChainPrefix(h, rows, m);
      ChainedNumbers(h, rows[..m]);
      assert ChainedAt(h, rows, m);
      NumbersBelow(h, rows, |rows| + 1);
    }
  }

  lemma {:induction false} NumbersBelow(h: HashFunction, rows: seq<AuditEntry>, n: nat)
    requires WellChained(h, rows) && n > |rows|
    ensures RowNumbered(rows, n).None?
  {
    if rows != [] {
      var m := |rows| - 1;
      assert ChainedAt(h, rows, m);
      ChainPrefix(h, rows, m);
      NumbersBelow(h, rows[..m], n);
    }
  }

  /** Appending keeps a chained trail chained, and never meets a hole or a taken number. */
  lemma AppendKeepsChain(env: Env, rows: seq<AuditEntry>, entry: AppendInput, now: string)
    requires WellChained(env.hash, rows)
    ensures NextEntry(env, rows, entry, now) != Err(SequenceConflict)
    ensures NextEntry(env, rows, entry, now).Ok? <==> Validate(env, entry).Ok? && OneRowPerField(Validate(env, entry).value)
    ensures NextEntry(env, rows, entry, now).Ok? ==>
              var e := NextEntry(env, rows, entry, now).value;
              && WellChained(env.hash, rows + [e])
              && e.payload == PayloadOf(entry, Validate(env, entry).value, |rows| + 1, now)
              && Reports(e.payload, entry) && e.payload.sequence == |rows| + 1 && e.payload.occurredAt == now
              && e.prev == LastHash(rows) && OneRowPerField(e.payload.values)
  {
    hide WellChained, MaxSequence, PrevHash, RowNumbered, NormaliseValues, EntryHash, OneRowPerField, Reports;
    ChainedNumbers(env.hash, rows);
    NormaliseErrors(env, entry.values);
    if Validate(env, entry).Ok? {
      PayloadReports(env, entry, |rows| + 1, now);
      ChainExtends(env.hash, rows, PayloadOf(entry, Validate(env, entry).value, |rows| + 1, now));
    }
  }

  lemma NextEntryCase(env: Env, rows: seq<AuditEntry>, entry: AppendInput, now: string)
    requires NextEntry(env, rows, entry, now).Ok?
    ensures NextEntry(env, rows, entry, now).value.payload.caseId == entry.caseId
  {}

  lemma {:induction false} NormaliseErrors(env: Env, vs: seq<AppendValue>)
    ensures NormaliseValues(env, vs) != Err(SequenceConflict) && NormaliseValues(env, vs) != Err(RepeatedField)
  {
    if vs != [] { NormaliseErrors(env, vs[1..]); }
  }

  // ---- the table ----------------------------------------------------------

  function CaseRows(rows: seq<AuditEntry>, caseId: string): seq<AuditEntry> {
    if rows == [] then [] else
      var last := rows[|rows| - 1];
      CaseRows(rows[..|rows| - 1], caseId) + (if last.payload.caseId == caseId then [last] else [])
  }

  /** Every case's rows form one chain. */
  ghost predicate TableChained(env: Env, rows: seq<AuditEntry>) {
    forall c :: WellChained(env.hash, CaseRows(rows, c))
  }

  lemma CaseRowsSnoc(rows: seq<AuditEntry>, e: AuditEntry, c: string)
    ensures CaseRows(rows + [e], c) == CaseRows(rows, c) + if e.payload.caseId == c then [e] else []
  {
    assert (rows + [e])[..|rows|] == rows;
  }

  /** One more entry, numbered and linked from its own case's rows, keeps every case's chain. */
  lemma TableGrows(env: Env, rows: seq<AuditEntry>, entry: AppendInput, now: string, e: AuditEntry)
    requires TableChained(env, rows)
    requires NextEntry(env, CaseRows(rows, entry.caseId), entry, now) == Ok(e)
    ensures TableChained(env, rows + [e])
  {
    forall c
      ensures WellChained(env.hash, CaseRows(rows + [e], c))
    {
      assert WellChained(env.hash, CaseRows(rows, c));
      CaseRowsSnoc(rows, e, c);
      if c == entry.caseId {
        AppendKeepsChain(env, CaseRows(rows, c), entry, now);
      } else {
        assert CaseRows(rows + [e], c) == CaseRows(rows, c);
      }
    }
  }

  /** `audit_entries` over all cases, in insertion order. */
  class AuditTable {
    var rows: seq<AuditEntry>
    var cases: set<string>

    constructor ()
      ensures rows == [] && cases == {}
    {
      rows := [];
      cases := {};
    }

    /** `append`: validate, find the case, number, link, hash, insert. A refusal leaves the table as it was. */
    method Append(env: Env, entry: AppendInput, now: string) returns (r: Result<AuditEntry, WriteError>)
      modifies this`rows
      ensures r.Err? ==> rows == old(rows)
      ensures r.Ok? ==> rows == old(rows) + [r.value] && r.value.payload.caseId == entry.caseId
      ensures r == if Validate(env, entry).Ok? && entry.caseId !in cases then Err(Invalid)
                   else NextEntry(env, CaseRows(old(rows), entry.caseId), entry, now)
      ensures old(TableChained(env, rows)) ==>
                && TableChained(env, rows)
                && (r.Ok? <==> Validate(env, entry).Ok? && entry.caseId in cases && OneRowPerField(Validate(env, entry).value))
                && (r.Ok? ==>
                      Reports(r.value.payload, entry) && r.value.payload.occurredAt == now
                      && r.value.payload.sequence == |CaseRows(old(rows), entry.caseId)| + 1)
    {
      hide WellChained, MaxSequence, PrevHash, RowNumbered, Validate, MakeEntry, CaseRows, EntryHash, OneRowPerField, Reports;
      ghost var before := rows;
      var checked := Validate(env, entry);
      if checked.Err? {
        return Err(checked.error);
      }
      if entry.caseId !in cases {
        return Err(Invalid);
      }
      if TableChained(env, before) {
        assert WellChained(env.hash, CaseRows(before, entry.caseId));
        AppendKeepsChain(env, CaseRows(before, entry.caseId), entry, now);
      }
      var n := MaxSequence(CaseRows(rows, entry.caseId)) + 1;
      var prev := PrevHash(CaseRows(rows, entry.caseId), n);
      if prev.None? {
        return Err(SequenceConflict);
      }
      if !OneRowPerField(checked.value) {
        return Err(RepeatedField);
      }
      var e := MakeEntry(env, PayloadOf(entry, checked.value, n, now), prev.value);
      assert NextEntry(env, CaseRows(before, entry.caseId), entry, now) == Ok(e);
      NextEntryCase(env, CaseRows(before, entry.caseId), entry, now);
      rows := rows + [e];
      r := Ok(e);
      if TableChained(env, before) {
        TableGrows(env, before, entry, now, e);
      }
    }
  }
}
