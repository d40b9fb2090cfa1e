/** The hashed payload of an audit entry, the per-case hash chain, and what the chain proves. */
module HashChain {
  import opened Text
  import opened Utf8
  import opened CanonicalJson
  import KeyOrder

  datatype Origin = AI | HUMAN

  datatype Action =
    | EntryReceived
    | ValidationCompleted
    | ExceptionOpened
    | RecommendationGenerated
    | RecommendationUnavailable
    | RecommendationApproved
    | RecommendationEditedAndApproved
    | RecommendationRejected

  datatype ActorType = SpecialistActor | AiActor | SystemActor

  /** One before/after row of an entry. */
  datatype AuditValue = AuditValue(
    fieldName: string,
    before: Option<string>, beforeOrigin: Option<Origin>,
    after: Option<string>, afterOrigin: Option<Origin>,
    changed: bool)

  /** Everything the hash covers. `occurredAt` is the transaction's formatted timestamp. */
  datatype Payload = Payload(
    caseId: string, sequence: nat, action: Action,
    actorType: ActorType, actorId: Option<string>, occurredAt: string,
    exceptionId: Option<string>, recommendationId: Option<string>, decisionId: Option<string>,
    beforeState: Option<string>, afterState: string, reason: Option<string>, requestId: Option<string>,
    values: seq<AuditValue>)

  function Zeros(n: nat): (bytes: seq<Byte>)
    ensures |bytes| == n && forall i :: 0 <= i < n ==> bytes[i] == 0
  {
    if n == 0 then [] else [0] + Zeros(n - 1)
  }

  type Digest = d: seq<Byte> | |d| == 32 witness Zeros(32)

  type HashFunction = seq<Byte> -> Digest

  const ZERO_HASH: Digest := Zeros(32)

  datatype AuditEntry = AuditEntry(payload: Payload, prev: Digest, hash: Digest)

  // ---- payload to JSON ----------------------------------------------------

  function ActionText(a: Action): string {
    match a
    case EntryReceived => "ENTRY_RECEIVED"
    case ValidationCompleted => "VALIDATION_COMPLETED"
    case ExceptionOpened => "EXCEPTION_OPENED"
    case RecommendationGenerated => "RECOMMENDATION_GENERATED"
    case RecommendationUnavailable => "RECOMMENDATION_UNAVAILABLE"
    case RecommendationApproved => "RECOMMENDATION_APPROVED"
    case RecommendationEditedAndApproved => "RECOMMENDATION_EDITED_AND_APPROVED"
    case RecommendationRejected => "RECOMMENDATION_REJECTED"
  }

  function ActorText(t: ActorType): string {
    match t
    case SpecialistActor => "SPECIALIST"
    case AiActor => "AI"
    case SystemActor => "SYSTEM"
  }

  function OriginText(o: Origin): string {
    match o
    case AI => "AI"
    case HUMAN => "HUMAN"
  }

  function NullableText(o: Option<string>): Json {
    match o
    case None => Null
    case Some(s) => Str(s)
  }

  function NullableOrigin(o: Option<Origin>): Json {
    match o
    case None => Null
    case Some(x) => Str(OriginText(x))
  }

  function ValueFields(v: AuditValue): seq<Field> {
    [ Field("field_name", Str(v.fieldName)),
      Field("before_value", NullableText(v.before)),
      Field("before_origin", NullableOrigin(v.beforeOrigin)),
      Field("after_value", NullableText(v.after)),
      Field("after_origin", NullableOrigin(v.afterOrigin)),
      Field("changed", Bool(v.changed)) ]
  }

  function ValueItems(vs: seq<AuditValue>): (items: seq<Json>)
    ensures |items| == |vs|
  {
    if vs == [] then [] else [Obj(ValueFields(vs[0]))] + ValueItems(vs[1..])
  }

  function RowName(v: AuditValue): string { v.fieldName }

  function PayloadFields(p: Payload): seq<Field> {
    [ Field("case_id", Str(p.caseId)),
      Field("case_sequence", Num(p.sequence)),
      Field("action_type", Str(ActionText(p.action))),
      Field("actor_type", Str(ActorText(p.actorType))),
      Field("actor_specialist_id", NullableText(p.actorId)),
      Field("occurred_at", Str(p.occurredAt)),
      Field("exception_id", NullableText(p.exceptionId)),
      Field("recommendation_id", NullableText(p.recommendationId)),
      Field("decision_id", NullableText(p.decisionId)),
      Field("before_state", NullableText(p.beforeState)),
      Field("after_state", Str(p.afterState)),
      Field("reason", NullableText(p.reason)),
      Field("request_id", NullableText(p.requestId)),
      Field("values", Arr(ValueItems(KeyOrder.Sort(RowName, p.values)))) ]
  }

  function HashInput(p: Payload, prev: Digest): seq<Byte> {
    Encode(Canonical(Obj(PayloadFields(p)))) + prev
  }

  function EntryHash(h: HashFunction, p: Payload, prev: Digest): Digest {
    h(HashInput(p, prev))
  }

  // ---- what the canonical payload text determines -------------------------

  lemma ActionTextInjective(a: Action, b: Action)
    requires ActionText(a) == ActionText(b)
    ensures a == b
  {
    assert "RECOMMENDATION_APPROVED"[15] == 'A' && "RECOMMENDATION_REJECTED"[15] == 'R';
  }

  /** Objects written with the same keys in the same places are determined by their canonical form. */
  lemma RecordInjective(fs: seq<Field>, gs: seq<Field>)
    requires |fs| == |gs| && forall i :: 0 <= i < |fs| ==> fs[i].key == gs[i].key
    requires Normal(Obj(fs)) == Normal(Obj(gs))
    ensures forall i :: 0 <= i < |fs| ==> Normal(fs[i].value) == Normal(gs[i].value)
  {
    var nf, ng := NormalFields(fs), NormalFields(gs);
    KeyOrder.SortAgreesIff(FieldKey, nf, ng);
    forall i | 0 <= i < |fs|
      ensures nf[i] == Field(fs[i].key, Normal(fs[i].value)) && ng[i] == Field(gs[i].key, Normal(gs[i].value))
    {
      NormalFieldsAt(fs, i);
      NormalFieldsAt(gs, i);
    }
    KeyOrder.SameKeysSortInjective(FieldKey, nf, ng);
  }

  lemma NullablesInjective(a: Option<string>, b: Option<string>, x: Option<Origin>, y: Option<Origin>)
    ensures NullableText(a) == NullableText(b) ==> a == b
    ensures NullableOrigin(x) == NullableOrigin(y) ==> x == y
    ensures Normal(NullableText(a)) == NullableText(a)
    ensures Normal(NullableOrigin(x)) == NullableOrigin(x)
  {
    assert |OriginText(AI)| != |OriginText(HUMAN)|;
  }

  lemma ValueInjective(v: AuditValue, w: AuditValue)
    requires Normal(Obj(ValueFields(v))) == Normal(Obj(ValueFields(w)))
    ensures v == w
  {
    var fs, gs := ValueFields(v), ValueFields(w);
    RecordInjective(fs, gs);
    assert Normal(fs[0].value) == Normal(gs[0].value) && Normal(fs[5].value) == Normal(gs[5].value);
    assert Normal(fs[1].value) == Normal(gs[1].value) && Normal(fs[2].value) == Normal(gs[2].value);
    assert Normal(fs[3].value) == Normal(gs[3].value) && Normal(fs[4].value) == Normal(gs[4].value);
    NullablesInjective(v.before, w.before, v.beforeOrigin, w.beforeOrigin);
    NullablesInjective(w.before, v.before, w.beforeOrigin, v.beforeOrigin);
    NullablesInjective(v.after, w.after, v.afterOrigin, w.afterOrigin);
    NullablesInjective(w.after, v.after, w.afterOrigin, v.afterOrigin);
  }

  lemma {:induction false} ValueItemsInjective(vs: seq<AuditValue>, ws: seq<AuditValue>)
    requires NormalItems(ValueItems(vs)) == NormalItems(ValueItems(ws))
    ensures vs == ws
  {
    assert |vs| == |ws|;
    if vs != [] {
      var a, b := ValueItems(vs), ValueItems(ws);
      assert NormalItems(a)[0] == Normal(a[0]) && NormalItems(b)[0] == Normal(b[0]);
      ValueInjective(vs[0], ws[0]);
      assert NormalItems(a)[1..] == NormalItems(a[1..]) && NormalItems(b)[1..] == NormalItems(b[1..]);
      assert a[1..] == ValueItems(vs[1..]) && b[1..] == ValueItems(ws[1..]);
      ValueItemsInjective(vs[1..], ws[1..]);
      assert vs == [vs[0]] + vs[1..] && ws == [ws[0]] + ws[1..];
    }
  }

  /** Two payloads carry the same record: every scalar equal, and under every field name the
      same value rows in the same order. Rows of different fields may be listed in any order. */
  ghost predicate SameRecord(p: Payload, q: Payload) {
    p.(values := []) == q.(values := []) && KeyOrder.AgreeUnderKeys(RowName, p.values, q.values)
  }

  lemma TextsInjective(p: Payload, q: Payload)
    requires forall i :: 0 <= i < 14 ==> Normal(PayloadFields(p)[i].value) == Normal(PayloadFields(q)[i].value)
    ensures p.caseId == q.caseId && p.sequence == q.sequence && p.action == q.action
    ensures p.actorType == q.actorType && p.occurredAt == q.occurredAt && p.afterState == q.afterState
  {
    var fs, gs := PayloadFields(p), PayloadFields(q);
    assert Normal(fs[0].value) == Normal(gs[0].value) && Normal(fs[1].value) == Normal(gs[1].value);
    assert Normal(fs[2].value) == Normal(gs[2].value) && Normal(fs[3].value) == Normal(gs[3].value);
    assert Normal(fs[5].value) == Normal(gs[5].value) && Normal(fs[10].value) == Normal(gs[10].value);
    ActionTextInjective(p.action, q.action);
    assert |ActorText(p.actorType)| == |ActorText(q.actorType)|;
  }

  lemma NullableTextsInjective(p: Payload, q: Payload)
    requires forall i :: 0 <= i < 14 ==> Normal(PayloadFields(p)[i].value) == Normal(PayloadFields(q)[i].value)
    ensures p.actorId == q.actorId && p.exceptionId == q.exceptionId && p.recommendationId == q.recommendationId
    ensures p.decisionId == q.decisionId && p.beforeState == q.beforeState
    ensures p.reason == q.reason && p.requestId == q.requestId
  {
    var fs, gs := PayloadFields(p), PayloadFields(q);
    assert Normal(fs[4].value) == Normal(gs[4].value);
    assert Normal(fs[6].value) == Normal(gs[6].value) && Normal(fs[7].value) == Normal(gs[7].value);
    assert Normal(fs[8].value) == Normal(gs[8].value) && Normal(fs[9].value) == Normal(gs[9].value);
    assert Normal(fs[11].value) == Normal(gs[11].value) && Normal(fs[12].value) == Normal(gs[12].value);
  }

  lemma SamePayloadFields(p: Payload, q: Payload)
    requires SameRecord(p, q)
    ensures PayloadFields(p) == PayloadFields(q)
  {
    KeyOrder.SortAgreesIff(RowName, p.values, q.values);
    hide KeyOrder.AgreeUnderKeys, KeyOrder.Sort, ValueItems;
    var r := p.(values := []);
    assert p == r.(values := p.values) && q == r.(values := q.values);
  }

  lemma PayloadTextInjective(p: Payload, q: Payload)
    requires Canonical(Obj(PayloadFields(p))) == Canonical(Obj(PayloadFields(q)))
    ensures SameRecord(p, q)
  {
    hide Canonical, KeyOrder.Sort, ValueItems, NormalItems, KeyOrder.AgreeUnderKeys;
    var fs, gs := PayloadFields(p), PayloadFields(q);
    CanonicalInjective(Obj(fs), Obj(gs));
    RecordInjective(fs, gs);
    TextsInjective(p, q);
    NullableTextsInjective(p, q);
    assert Normal(fs[13].value) == Normal(gs[13].value);
    ValueItemsInjective(KeyOrder.Sort(RowName, p.values), KeyOrder.Sort(RowName, q.values));
    KeyOrder.SortAgreesIff(RowName, p.values, q.values);
  }

  /** The canonical text determines the record, and nothing but the record determines the text. */
  lemma PayloadTextIffSameRecord(p: Payload, q: Payload)
    ensures Canonical(Obj(PayloadFields(p))) == Canonical(Obj(PayloadFields(q))) <==> SameRecord(p, q)
  {
    hide Canonical, PayloadFields, SameRecord;
    if SameRecord(p, q) {
      SamePayloadFields(p, q);
    }
    if Canonical(Obj(PayloadFields(p))) == Canonical(Obj(PayloadFields(q))) {
      PayloadTextInjective(p, q);
    }
  }

  // ---- what the hashed text says ------------------------------------------

  function ActionNamed(text: string): Option<Action> {
    if text == "ENTRY_RECEIVED" then Some(EntryReceived)
    else if text == "VALIDATION_COMPLETED" then Some(ValidationCompleted)
    else if text == "EXCEPTION_OPENED" then Some(ExceptionOpened)
    else if text == "RECOMMENDATION_GENERATED" then Some(RecommendationGenerated)
    else if text == "RECOMMENDATION_UNAVAILABLE" then Some(RecommendationUnavailable)
    else if text == "RECOMMENDATION_APPROVED" then Some(RecommendationApproved)
    else if text == "RECOMMENDATION_EDITED_AND_APPROVED" then Some(RecommendationEditedAndApproved)
    else if text == "RECOMMENDATION_REJECTED" then Some(RecommendationRejected)
    else None
  }

  function ActorNamed(text: string): Option<ActorType> {
    if text == "SPECIALIST" then Some(SpecialistActor)
    else if text == "AI" then Some(AiActor)
    else if text == "SYSTEM" then Some(SystemActor)
    else None
  }

  lemma NamesReadBack(a: Action, t: ActorType)
    ensures ActionNamed(ActionText(a)) == Some(a) && ActorNamed(ActorText(t)) == Some(t)
  {}

  /** A text that may be absent. */
  predicate HasText(v: Json, key: string, text: Option<string>) {
    if text.None? then Has(v, key, Null) else Has(v, key, Str(text.value))
  }

  predicate HasOrigin(v: Json, key: string, origin: Option<Origin>) {
    match origin
    case None => Has(v, key, Null)
    case Some(AI) => Has(v, key, Str("AI"))
    case Some(HUMAN) => Has(v, key, Str("HUMAN"))
  }

  /** The object tells this row, each component under its own key. */
  predicate TellsRow(v: Json, r: AuditValue) {
    && v.Obj? && |v.fields| == 6
    && Has(v, "field_name", Str(r.fieldName))
    && HasText(v, "before_value", r.before) && HasOrigin(v, "before_origin", r.beforeOrigin)
    && HasText(v, "after_value", r.after) && HasOrigin(v, "after_origin", r.afterOrigin)
    && Has(v, "changed", Bool(r.changed))
  }

  ghost predicate HasRows(v: Json, key: string, rows: seq<AuditValue>) {
    exists items :: Has(v, key, Arr(items)) && |items| == |rows| && forall i :: 0 <= i < |rows| ==> TellsRow(items[i], rows[i])
  }

  ghost predicate HasNames(v: Json, action: Action, actor: ActorType) {
    exists a, t :: Has(v, "action_type", Str(a)) && ActionNamed(a) == Some(action)
                   && Has(v, "actor_type", Str(t)) && ActorNamed(t) == Some(actor)
  }

  /** The object tells this record: thirteen scalars, each under its own key, and the rows sorted by field. */
  ghost predicate TellsRecord(v: Json, p: Payload) {
    && v.Obj? && |v.fields| == 14
    && Has(v, "case_id", Str(p.caseId)) && Has(v, "case_sequence", Num(p.sequence))
    && HasNames(v, p.action, p.actorType) && HasText(v, "actor_specialist_id", p.actorId)
    && Has(v, "occurred_at", Str(p.occurredAt))
    && HasText(v, "exception_id", p.exceptionId) && HasText(v, "recommendation_id", p.recommendationId)
    && HasText(v, "decision_id", p.decisionId)
    && HasText(v, "before_state", p.beforeState) && Has(v, "after_state", Str(p.afterState))
    && HasText(v, "reason", p.reason) && HasText(v, "request_id", p.requestId)
    && HasRows(v, "values", KeyOrder.Sort(RowName, p.values))
  }

  /** No two keys agree in length, first and second letter. */
  lemma PayloadKeysDiffer(p: Payload)
    ensures KeyOrder.DistinctKeys(FieldKey, PayloadFields(p))
  {
    hide ValueItems, KeyOrder.Sort, NullableText, ActionText, ActorText;
    var fs := PayloadFields(p);
    forall i, j | 0 <= i < j < |fs|
      ensures FieldKey(fs[i]) != FieldKey(fs[j])
    {
      assert |fs[i].key| != |fs[j].key| || fs[i].key[0] != fs[j].key[0] || fs[i].key[1] != fs[j].key[1];
    }
  }

  lemma RowKeysDiffer(r: AuditValue)
    ensures KeyOrder.DistinctKeys(FieldKey, ValueFields(r))
  {
    hide NullableText, NullableOrigin;
    var fs := ValueFields(r);
    forall i, j | 0 <= i < j < |fs|
      ensures FieldKey(fs[i]) != FieldKey(fs[j])
    {
      assert |fs[i].key| != |fs[j].key| || fs[i].key[0] != fs[j].key[0];
    }
  }

  lemma RowTold(r: AuditValue)
    ensures TellsRow(Normal(Obj(ValueFields(r))), r)
  {
    hide Has, Normal;
    var fs := ValueFields(r);
    RowKeysDiffer(r);
    NormalHas(fs, 0);
    NormalHas(fs, 1);
    NormalHas(fs, 2);
    NormalHas(fs, 3);
    NormalHas(fs, 4);
    NormalHas(fs, 5);
    NormalScalars(r.fieldName, 0, r.changed);
    NullablesInjective(r.before, r.before, r.beforeOrigin, r.beforeOrigin);
    NullablesInjective(r.after, r.after, r.afterOrigin, r.afterOrigin);
  }

  lemma NormalScalars(s: string, n: int, b: bool)
    ensures Normal(Str(s)) == Str(s) && Normal(Num(n)) == Num(n) && Normal(Bool(b)) == Bool(b)
  {}

  lemma {:induction false} RowsTold(rows: seq<AuditValue>, i: nat)
    requires i < |rows|
    ensures TellsRow(NormalItems(ValueItems(rows))[i], rows[i])
  {
    hide TellsRow, Normal;
    if i == 0 {
      RowTold(rows[0]);
    } else {
      RowsTold(rows[1..], i - 1);
    }
  }

  lemma ScalarsTold(p: Payload)
    ensures var v := Normal(Obj(PayloadFields(p)));
            && v.Obj? && |v.fields| == 14
            && Has(v, "case_id", Str(p.caseId)) && Has(v, "case_sequence", Num(p.sequence))
            && HasNames(v, p.action, p.actorType)
            && Has(v, "occurred_at", Str(p.occurredAt)) && Has(v, "after_state", Str(p.afterState))
  {
    hide Has, Normal, ValueItems, KeyOrder.Sort, ActionText, ActorText, ActionNamed, ActorNamed, NullableText;
    var fs := PayloadFields(p);
    PayloadKeysDiffer(p);
    NormalHas(fs, 0);
    NormalHas(fs, 1);
    NormalHas(fs, 2);
    NormalHas(fs, 3);
    NormalHas(fs, 5);
    NormalHas(fs, 10);
    NormalScalars(p.caseId, p.sequence, true);
    NormalScalars(ActionText(p.action), 0, true);
    NormalScalars(ActorText(p.actorType), 0, true);
    NormalScalars(p.occurredAt, 0, true);
    NormalScalars(p.afterState, 0, true);
    NamesReadBack(p.action, p.actorType);
  }

  lemma NullablesTold(p: Payload)
    ensures var v := Normal(Obj(PayloadFields(p)));
            && HasText(v, "actor_specialist_id", p.actorId)
            && HasText(v, "exception_id", p.exceptionId) && HasText(v, "recommendation_id", p.recommendationId)
            && HasText(v, "decision_id", p.decisionId) && HasText(v, "before_state", p.beforeState)
            && HasText(v, "reason", p.reason) && HasText(v, "request_id", p.requestId)
  {
    hide Has, Normal, ValueItems, KeyOrder.Sort, ActionText, ActorText;
    var fs := PayloadFields(p);
    PayloadKeysDiffer(p);
    NormalHas(fs, 4);
    NormalHas(fs, 6);
    NormalHas(fs, 7);
    NormalHas(fs, 8);
    NormalHas(fs, 9);
    NormalHas(fs, 11);
    NormalHas(fs, 12);
    NullablesInjective(p.actorId, p.exceptionId, None, None);
    NullablesInjective(p.exceptionId, p.recommendationId, None, None);
    NullablesInjective(p.recommendationId, p.decisionId, None, None);
    NullablesInjective(p.decisionId, p.beforeState, None, None);
    NullablesInjective(p.beforeState, p.reason, None, None);
    NullablesInjective(p.reason, p.requestId, None, None);
    NullablesInjective(p.requestId, p.actorId, None, None);
  }

  lemma ValuesTold(p: Payload)
    ensures HasRows(Normal(Obj(PayloadFields(p))), "values", KeyOrder.Sort(RowName, p.values))
  {
    hide Has, TellsRow, KeyOrder.Sort, ActionText, ActorText, NullableText;
    var fs, rows := PayloadFields(p), KeyOrder.Sort(RowName, p.values);
    PayloadKeysDiffer(p);
    NormalHas(fs, 13);
    var items := NormalItems(ValueItems(rows));
    forall i | 0 <= i < |rows|
      ensures TellsRow(items[i], rows[i])
    {
      RowsTold(rows, i);
    }
    assert Normal(fs[13].value) == Arr(items);
  }

  /** The canonical text of a payload, parsed, tells the record, every component under its own key and in its own words. */
  lemma HashedTextTells(p: Payload)
    ensures var r := ParseValue(Canonical(Obj(PayloadFields(p))));
            r.Parsed? && r.rest == "" && TellsRecord(r.value, p)
  {
    hide Has, HasText, HasRows, HasNames, Normal, PayloadFields, ParseValue, Canonical;
    CanonicalRoundTrip(Obj(PayloadFields(p)));
    ScalarsTold(p);
    NullablesTold(p);
    ValuesTold(p);
  }

  /** The hash of an entry is taken over the bytes of a text that tells its record, and the link after them. */
  ghost predicate HashCovers(h: HashFunction, e: AuditEntry) {
    exists text :: e.hash == h(Encode(text) + e.prev) && TextTells(text, e.payload)
  }

  ghost predicate TextTells(text: string, p: Payload) {
    var r := ParseValue(text);
    r.Parsed? && r.rest == "" && TellsRecord(r.value, p)
  }

  lemma EntryHashCovers(h: HashFunction, e: AuditEntry)
    requires e.hash == EntryHash(h, e.payload, e.prev)
    ensures HashCovers(h, e)
  {
    hide TellsRecord, PayloadFields, ParseValue, Canonical, Encode;
    HashedTextTells(e.payload);
    var text := Canonical(Obj(PayloadFields(e.payload)));
    assert TextTells(text, e.payload);
  }

  /** What is hashed determines the record and the previous hash: the last 32 bytes are the link. */
  lemma HashInputInjective(p: Payload, q: Payload, a: Digest, b: Digest)
    ensures HashInput(p, a) == HashInput(q, b) <==> SameRecord(p, q) && a == b
  {
    var x, y := Encode(Canonical(Obj(PayloadFields(p)))), Encode(Canonical(Obj(PayloadFields(q))));
    PayloadTextIffSameRecord(p, q);
    if HashInput(p, a) == HashInput(q, b) {
      assert |x| == |y|;
      assert x == (x + a)[..|x|] && y == (y + b)[..|y|];
      assert a == (x + a)[|x|..] && b == (y + b)[|y|..];
      EncodeInjective(Canonical(Obj(PayloadFields(p))), Canonical(Obj(PayloadFields(q))));
    }
  }

  /** With one row per field, the record does not depend on the order of the rows. */
  lemma RowOrderIrrelevant(h: HashFunction, p: Payload, q: Payload, prev: Digest)
    requires p.(values := []) == q.(values := [])
    requires KeyOrder.DistinctKeys(RowName, p.values) && KeyOrder.DistinctKeys(RowName, q.values)
    requires forall v :: v in p.values <==> v in q.values
    ensures SameRecord(p, q) && EntryHash(h, p, prev) == EntryHash(h, q, prev)
  {
    KeyOrder.RearrangedSortsAlike(RowName, p.values, q.values);
    KeyOrder.SortAgreesIff(RowName, p.values, q.values);
  }

  /** With a repeated field the order of its rows is part of the record. */
  lemma RepeatedRowOrderMatters(p: Payload, a: AuditValue, b: AuditValue)
    requires a != b && a.fieldName == b.fieldName
    ensures !SameRecord(p.(values := [a, b]), p.(values := [b, a]))
  {
    assert [a, b][1..] == [b] && [b, a][1..] == [a];
    assert KeyOrder.Under(RowName, a.fieldName, [a, b])[0] == a;
    assert KeyOrder.Under(RowName, a.fieldName, [b, a])[0] == b;
  }

  // ---- the chain ----------------------------------------------------------

  function LastHash(trail: seq<AuditEntry>): Digest {
    if trail == [] then ZERO_HASH else trail[|trail| - 1].hash
  }

  /** Entry `i` is numbered `i + 1`, is linked to its predecessor and carries its own hash. */
  ghost predicate ChainedAt(h: HashFunction, trail: seq<AuditEntry>, i: nat)
    requires i < |trail|
  {
    var e := trail[i];
    && e.payload.sequence == i + 1
    && e.prev == LastHash(trail[..i])
    && e.hash == EntryHash(h, e.payload, e.prev)
  }

  ghost predicate WellChained(h: HashFunction, trail: seq<AuditEntry>) {
    forall i :: 0 <= i < |trail| ==> ChainedAt(h, trail, i)
  }

  lemma ChainExtends(h: HashFunction, trail: seq<AuditEntry>, p: Payload)
    requires WellChained(h, trail)
    requires p.sequence == |trail| + 1
    ensures WellChained(h, trail + [AuditEntry(p, LastHash(trail), EntryHash(h, p, LastHash(trail)))])
  {
    var longer := trail + [AuditEntry(p, LastHash(trail), EntryHash(h, p, LastHash(trail)))];
    forall i | 0 <= i < |longer|
      ensures ChainedAt(h, longer, i)
    {
      if i < |trail| {
        assert ChainedAt(h, trail, i);
        assert longer[..i] == trail[..i];
      } else {
        assert longer[..i] == trail;
      }
    }
  }

  lemma ChainPrefix(h: HashFunction, trail: seq<AuditEntry>, n: nat)
    requires WellChained(h, trail) && n <= |trail|
    ensures WellChained(h, trail[..n])
  {
    forall i | 0 <= i < n
      ensures ChainedAt(h, trail[..n], i)
    {
      assert ChainedAt(h, trail, i);
      assert trail[..n][..i] == trail[..i];
    }
  }

  /** What was hashed to make entry `e`. */
  function Hashed(e: AuditEntry): seq<Byte> {
    HashInput(e.payload, e.prev)
  }

  /** Two different byte strings with one digest. */
  predicate Collision(h: HashFunction, x: seq<Byte>, y: seq<Byte>) {
    x != y && h(x) == h(y)
  }

  /** Somewhere along the two trails the hash function was broken. */
  ghost predicate CollisionBetween(h: HashFunction, a: seq<AuditEntry>, b: seq<AuditEntry>) {
    exists i, j :: 0 <= i < |a| && 0 <= j < |b| && Collision(h, Hashed(a[i]), Hashed(b[j]))
  }

  ghost predicate SameEntry(x: AuditEntry, y: AuditEntry) {
    SameRecord(x.payload, y.payload) && x.hash == y.hash
  }

  ghost predicate SameHistory(a: seq<AuditEntry>, b: seq<AuditEntry>) {
    |a| == |b| && forall i :: 0 <= i < |a| ==> SameEntry(a[i], b[i])
  }

  /** Equal head hashes: a collision, or the same head record on top of equal earlier hashes. */
  lemma HeadsAgree(h: HashFunction, a: seq<AuditEntry>, b: seq<AuditEntry>)
    requires WellChained(h, a) && WellChained(h, b) && a != [] && b != []
    requires LastHash(a) == LastHash(b)
    ensures var m, n := |a| - 1, |b| - 1;
            || Collision(h, Hashed(a[m]), Hashed(b[n]))
            || (m == n && SameEntry(a[m], b[n]) && LastHash(a[..m]) == LastHash(b[..n]))
  {
    var m, n := |a| - 1, |b| - 1;
    assert ChainedAt(h, a, m) && ChainedAt(h, b, n);
    HashInputInjective(a[m].payload, b[n].payload, a[m].prev, b[n].prev);
    if SameRecord(a[m].payload, b[n].payload) {
      assert a[m].payload.(values := []).sequence == b[n].payload.(values := []).sequence;
    }
  }

  lemma CollisionAt(h: HashFunction, a: seq<AuditEntry>, b: seq<AuditEntry>, i: nat, j: nat)
    requires i < |a| && j < |b| && Collision(h, Hashed(a[i]), Hashed(b[j]))
    ensures CollisionBetween(h, a, b)
  {
    hide Hashed, Collision;
  }

  lemma CollisionInLonger(h: HashFunction, a: seq<AuditEntry>, b: seq<AuditEntry>, m: nat, n: nat)
    requires m <= |a| && n <= |b| && CollisionBetween(h, a[..m], b[..n])
    ensures CollisionBetween(h, a, b)
  {
    var i, j :| 0 <= i < m && 0 <= j < n && Collision(h, Hashed(a[..m][i]), Hashed(b[..n][j]));
    assert Collision(h, Hashed(a[i]), Hashed(b[j]));
  }

  /** Tamper evidence: trails that end in the same hash tell the same history, entry by entry,
      unless the pair of trails itself exhibits a hash collision. */
  lemma {:induction false} TamperEvidence(h: HashFunction, a: seq<AuditEntry>, b: seq<AuditEntry>)
    requires WellChained(h, a) && WellChained(h, b) && a != [] && b != []
    requires LastHash(a) == LastHash(b)
    ensures SameHistory(a, b) || CollisionBetween(h, a, b)
    decreases |a|
  {
    hide WellChained, SameEntry, Hashed, Collision, CollisionBetween;
    var m, n := |a| - 1, |b| - 1;
    HeadsAgree(h, a, b);
    if Collision(h, Hashed(a[m]), Hashed(b[n])) {
      CollisionAt(h, a, b, m, n);
    } else if m > 0 {
      ChainPrefix(h, a, m);
      ChainPrefix(h, b, n);
      TamperEvidence(h, a[..m], b[..n]);
      if CollisionBetween(h, a[..m], b[..n]) {
        CollisionInLonger(h, a, b, m, n);
      } else {
        forall i | 0 <= i < |a|
          ensures SameEntry(a[i], b[i])
        {
          if i < m {
            assert SameEntry(a[..m][i], b[..n][i]);
          }
        }
      }
    }
  }

  /** Conversely the records alone fix every hash along a chained trail. */
  lemma {:induction false} RecordsFixHashes(h: HashFunction, a: seq<AuditEntry>, b: seq<AuditEntry>)
    requires WellChained(h, a) && WellChained(h, b) && |a| == |b|
    requires forall i :: 0 <= i < |a| ==> SameRecord(a[i].payload, b[i].payload)
    ensures SameHistory(a, b) && LastHash(a) == LastHash(b)
  {
    hide HashInput;
    if a != [] {
      var m := |a| - 1;
      ChainPrefix(h, a, m);
      ChainPrefix(h, b, m);
      RecordsFixHashes(h, a[..m], b[..m]);
      assert ChainedAt(h, a, m) && ChainedAt(h, b, m);
      HashInputInjective(a[m].payload, b[m].payload, a[m].prev, b[m].prev);
      forall i | 0 <= i < |a|
        ensures SameEntry(a[i], b[i])
      {
        if i < m {
          assert SameEntry(a[..m][i], b[..m][i]);
        }
      }
    }
  }
}
