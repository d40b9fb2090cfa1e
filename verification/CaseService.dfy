/** The three transactions as the service runs them, statement by statement on one client, with nobody else at work. */
module CaseService {
  import opened Text
  import opened HashChain
  import opened AuditWriter
  import opened Decisions
  import opened DecisionRules
  import opened RuleEngine
  import opened Lifecycle
  import opened CaseInvariant
  import opened CaseSteps
  import opened CaseCommits
  import opened Protocol
  import opened CaseTheorems
  import opened CaseRefusals
  import opened RuleClashes
  import ProviderOutput

  // ---- what each transaction leaves behind --------------------------------

  /** The appended entry is the one the invariant expects of a transaction about to commit. */
  lemma AppendedOk(env: Env, c: string, db: Tables, tx: Tx, entry: AppendInput, now: string, e: AuditEntry)
    requires WellChained(env.hash, db.trail) && NextEntry(env, db.trail, entry, now) == Ok(e)
    requires tx.audit == [e] && tx.now == now && CaseAnchor in tx.held && tx.cursor == Idle && PastInputs(c, tx.program) == [entry]
    ensures AuditOk(env, c, db, tx)
  {
    hide WellChained, Validate, PastInputs, CurrentInput, NextEntry;
    AppendKeepsChain(env, db.trail, entry, now);
    assert Told(env, e, entry);
  }

  lemma DecisionAlone(env: Env, c: string, db: Tables, d: DecisionRequest, plan: Plan, id: string, now: string, e: AuditEntry)
    requires TablesOk(env, c, db) && db.entry.Some? && db.exception.Some? && db.recommendation.Some?
    requires db.exception.value.state == OPEN && plan.seen == db.recommendation.value.status
    requires MakePlan(d.body, plan.seen, db.proposals, db.entry.value.values) == Ok(plan)
    requires var input := DecidedInput(c, db.exception.value.id, db.recommendation.value.id, id, d, plan);
             NextEntry(env, db.trail, input, now) == Ok(e)
    ensures var db' := db.(exception := Some(db.exception.value.(state := plan.resulting, decisionId := Some(id))),
                           decisions := [DecisionRowFor(d, db.recommendation.value.id, plan, id)],
                           decisionValues := map[id := plan.values], trail := db.trail + [e]);
            TablesOk(env, c, db') && ClosedAsAsked(db, db', d)
  {
    hide MakePlan, NextEntry, ClosedAsAsked, WellChained, DecidedInput, CaseOk, AuditOk, DecisionRowFor, UpToDate;
    var ex, rec := db.exception.value.id, db.recommendation.value.id;
    var program := Decide(ex, d, DecisionCommit(rec, plan, id));
    var tx := Tx(program, PastRows(program), [e], HeldAt(program, Idle), Idle, now);
    AppendedOk(env, c, db, tx, DecidedInput(c, ex, rec, id, d, plan), now, e);
    assert TxOk(env, c, db, tx);
    NothingDecided(env, c, db);
    hide TablesOk, TxOk, PastRows;
    DecisionPublishes(db, tx, ex, d, rec, plan, id);
    CommitKeepsTables(env, c, db, tx);
    AtDecisionCommit(db, d, tx);
    CommitCloses(env, c, db, d, tx);
  }

  lemma NothingDecided(env: Env, c: string, db: Tables)
    requires TablesOk(env, c, db) && db.exception.Some? && db.exception.value.state == OPEN
    ensures db.decisions == [] && db.decisionValues == map[]
  {
    hide WellChained, EntryClean, ProposalsOk, HeadOk, TailOk;
  }

  lemma AtDecisionCommit(db: Tables, d: DecisionRequest, tx: Tx)
    requires db.recommendation.Some? && tx.program.Decide? && tx.program.decision == d
    requires tx.program.decisionPc.DecisionCommit? && tx.program.decisionPc.plan.seen == db.recommendation.value.status
    ensures UpToDate(db, d, tx)
  {}

  /** The recommendation has been answered: its new row, its proposals, and one entry of the AI that offers exactly these
      against the received values, or says that there is nothing to offer; nothing else. */
  ghost predicate Answered(db: Tables, db': Tables, status: RecommendationStatus, failure: Option<FailureReason>,
                           ps: seq<Proposal>, now: string) {
    && db.entry.Some? && db.exception.Some? && db.recommendation.Some? && |db'.trail| == |db.trail| + 1
    && var e := db'.trail[|db.trail|];
       && db' == db.(recommendation := Some(db.recommendation.value.(status := status, failure := failure)),
                     proposals := ps, trail := db.trail + [e])
       && IsAiEntry(db', e) && e.payload.occurredAt == now
  }

  lemma AvailableAlone(env: Env, c: string, db: Tables, ps: seq<Proposal>, now: string, e: AuditEntry)
    requires TablesOk(env, c, db) && db.entry.Some? && db.exception.Some? && db.recommendation.Some?
    requires db.recommendation.value.status == PENDING && AllRealFields(ps) && ProposalsStorable(ps)
    requires var input := GeneratedInput(c, db.exception.value.id, db.recommendation.value.id, db.entry.value.values, ps);
             NextEntry(env, db.trail, input, now) == Ok(e)
    ensures var db' := db.(recommendation := Some(db.recommendation.value.(status := AVAILABLE, failure := None)),
                           proposals := ps, trail := db.trail + [e]);
            TablesOk(env, c, db') && Answered(db, db', AVAILABLE, None, ps, now) && db.proposals == []
  {
    hide NextEntry, WellChained, GeneratedInput, CaseOk, AuditOk, ProposalsStorable, AllRealFields, PastRows, ToldBy;
    var ex, rec, entry := db.exception.value.id, db.recommendation.value.id, db.entry.value.values;
    var program := Job(ex, CommitAvailable(rec, entry, ps));
    var tx := Tx(program, PastRows(program), [e], HeldAt(program, Idle), Idle, now);
    AppendedOk(env, c, db, tx, GeneratedInput(c, ex, rec, entry, ps), now, e);
    assert TxOk(env, c, db, tx);
    hide TablesOk, TxOk, Publish;
    JobTells(env, c, db, tx);
    CommitKeepsTables(env, c, db, tx);
    ToldAnswers(db, Publish(db, tx), tx);
  }

  lemma UnavailableAlone(env: Env, c: string, db: Tables, reason: FailureReason, now: string, e: AuditEntry)
    requires TablesOk(env, c, db) && db.entry.Some? && db.exception.Some? && db.recommendation.Some?
    requires db.recommendation.value.status == PENDING
    requires NextEntry(env, db.trail, UnavailableInput(c, db.exception.value.id, db.recommendation.value.id), now) == Ok(e)
    ensures var db' := db.(recommendation := Some(db.recommendation.value.(status := UNAVAILABLE, failure := Some(reason))),
                           trail := db.trail + [e]);
            TablesOk(env, c, db') && Answered(db, db', UNAVAILABLE, Some(reason), [], now)
  {
    hide NextEntry, WellChained, UnavailableInput, CaseOk, AuditOk, PastRows, ToldBy;
    var ex, rec := db.exception.value.id, db.recommendation.value.id;
    var program := Job(ex, CommitUnavailable(rec, reason));
    var tx := Tx(program, PastRows(program), [e], HeldAt(program, Idle), Idle, now);
    AppendedOk(env, c, db, tx, UnavailableInput(c, ex, rec), now, e);
    assert TxOk(env, c, db, tx);
    hide TablesOk, TxOk, Publish;
    JobTells(env, c, db, tx);
    CommitKeepsTables(env, c, db, tx);
    ToldAnswers(db, Publish(db, tx), tx);
  }

  lemma ToldAnswers(db: Tables, db': Tables, tx: Tx)
    requires tx.program.Job? && (tx.program.jobPc.CommitAvailable? || tx.program.jobPc.CommitUnavailable?)
    requires ToldBy(db, db', tx)
    ensures var pc := tx.program.jobPc;
            && db.proposals == []
            && Answered(db, db', if pc.CommitAvailable? then AVAILABLE else UNAVAILABLE,
                        if pc.CommitAvailable? then None else Some(pc.reason), if pc.CommitAvailable? then pc.proposals else [],
                        tx.now)
            && db' == db.(recommendation := db'.recommendation, proposals := db'.proposals, trail := db.trail + tx.audit)
  {}

  /** What the job keeps of an answer: the proposals about entry fields, in their order. */
  lemma {:induction false} RealFieldsExact(ps: seq<Proposal>)
    ensures forall p :: p in RealFields(ps) <==> p in ps && p.fieldName in ENTRY_FIELDS
    ensures AllRealFields(ps) ==> RealFields(ps) == ps
  {
    if ps != [] {
      var tail := ps[1..];
      assert forall i :: 0 <= i < |tail| ==> tail[i] == ps[i + 1];
      RealFieldsExact(tail);
      assert ps == [ps[0]] + tail;
    }
  }

  /** An answer that passed the schema reaches the tables whole: no proposal is dropped and none is refused for its
      shape, so a job that has one either makes it available or records that the content was filtered. */
  lemma ValidatedAnswerIsWritten(a: ProviderOutput.Answer, known: set<string>)
    requires ProviderOutput.Acceptable(a, known)
    ensures var ps := ProviderOutput.Proposals(ProviderOutput.Trimmed(a));
            RealFields(ps) == ps && ProposalsStorable(ps)
  {
    hide ProviderOutput.Acceptable, ProposalsStorable, RealFields;
    ProviderOutput.AcceptedProposals(a, known);
    RealFieldsExact(ProviderOutput.Proposals(ProviderOutput.Trimmed(a)));
  }

  // ---- a receipt ----------------------------------------------------------

  function FindingText(f: Finding): string {
    f.failureCode + ": " + f.message
  }

  /** A named specialist, values that fit their columns, nothing that looks like a secret, findings about entry fields, at
      most one for each field, and an evaluation that meets the checks of its tables. */
  predicate ReceiptAcceptable(env: Env, r: ReceiptRequest) {
    && r.principal != "" && ColumnsHold(StoredValues(r.submitted)) && EvaluationStorable(r.evaluation)
    && (forall f :: f in ENTRY_FIELDS && f in r.submitted ==> !env.secretValue(r.submitted[f]))
    && (forall i :: 0 <= i < |r.evaluation.findings| ==>
          r.evaluation.findings[i].fieldName in ENTRY_FIELDS && !env.secretValue(FindingText(r.evaluation.findings[i])))
    && OneFindingPerField(r.evaluation.findings)
  }

  predicate SubmittedClean(env: Env, submitted: EntryValues) {
    forall f :: f in ENTRY_FIELDS && f in submitted ==> !env.secretValue(submitted[f])
  }

  predicate FindingsClean(env: Env, findings: seq<Finding>) {
    forall i :: 0 <= i < |findings| ==> findings[i].fieldName in ENTRY_FIELDS && !env.secretValue(FindingText(findings[i]))
  }

  lemma SubmittedRowIff(env: Env, submitted: EntryValues, provided: seq<string>, i: nat)
    requires i < |provided| && provided[i] in ENTRY_FIELDS && provided[i] in submitted
    ensures RowAcceptable(env, SubmittedRows(submitted, provided)[i]) <==> !env.secretValue(submitted[provided[i]])
  {
    FieldNamesAreSafe();
  }

  lemma ReceivedIff(env: Env, c: string, r: ReceiptRequest)
    ensures Validate(env, ReceivedInput(c, r)).Ok? <==> r.principal != "" && SubmittedClean(env, r.submitted)
  {
    hide Validate, RowAcceptable, ProvidedAmong, SubmittedRows;
    var input, provided := ReceivedInput(c, r), Provided(r.submitted);
    ValidateIff(env, input);
    forall i | 0 <= i < |provided|
      ensures provided[i] in ENTRY_FIELDS && provided[i] in r.submitted
      ensures RowAcceptable(env, input.values[i]) <==> !env.secretValue(r.submitted[provided[i]])
    {
      ProvidedMember(r.submitted, ENTRY_FIELDS, provided[i]);
      SubmittedRowIff(env, r.submitted, provided, i);
    }
    if forall i :: 0 <= i < |input.values| ==> RowAcceptable(env, input.values[i]) {
      forall f | f in ENTRY_FIELDS && f in r.submitted
        ensures !env.secretValue(r.submitted[f])
      {
        ProvidedMember(r.submitted, ENTRY_FIELDS, f);
        var i :| 0 <= i < |provided| && provided[i] == f;
        assert RowAcceptable(env, input.values[i]);
      }
    }
  }

  lemma FindingRowIff(env: Env, findings: seq<Finding>, i: nat)
    requires i < |findings|
    ensures RowAcceptable(env, FindingRows(findings)[i]) <==>
            findings[i].fieldName in ENTRY_FIELDS && !env.secretValue(FindingText(findings[i]))
  {
    FieldNamesAreSafe();
  }

  lemma FindingsIff(env: Env, input: AppendInput, findings: seq<Finding>)
    requires input.values == FindingRows(findings)
    ensures Validate(env, input).Ok? <==> HeaderAcceptable(input) && FindingsClean(env, findings)
  {
    hide Validate, RowAcceptable, HeaderAcceptable, FindingRows;
    ValidateIff(env, input);
    forall i | 0 <= i < |findings|
      ensures RowAcceptable(env, input.values[i]) <==>
              findings[i].fieldName in ENTRY_FIELDS && !env.secretValue(FindingText(findings[i]))
    {
      FindingRowIff(env, findings, i);
    }
  }

  lemma FindingsOnePerField(env: Env, input: AppendInput, findings: seq<Finding>)
    requires input.values == FindingRows(findings) && Validate(env, input).Ok?
    ensures OneRowPerField(Validate(env, input).value) <==> OneFindingPerField(findings)
  {
    hide Validate, OneRowPerField;
    AcceptedRows(env, input);
    if OneFindingPerField(findings) {
      RowsOnePerField(FindingRows(findings));
    }
    if OneRowPerField(Validate(env, input).value) {
      RowsFromFindings(findings);
    }
  }

  predicate NoRepeat(xs: seq<string>) {
    xs == [] || (xs[0] !in xs[1..] && NoRepeat(xs[1..]))
  }

  lemma {:induction false} NoRepeatAt(xs: seq<string>, i: nat, j: nat)
    requires NoRepeat(xs) && i < j < |xs|
    ensures xs[i] != xs[j]
  {
    if i == 0 {
      assert xs[j] == xs[1..][j - 1];
    } else {
      NoRepeatAt(xs[1..], i - 1, j - 1);
    }
  }

  lemma {:induction false} DifferMeansNoRepeat(xs: seq<string>)
    requires forall i, j :: 0 <= i < j < |xs| ==> xs[i] != xs[j]
    ensures NoRepeat(xs)
  {
    if xs != [] {
      var tail := xs[1..];
      assert forall i :: 0 <= i < |tail| ==> tail[i] == xs[i + 1];
      DifferMeansNoRepeat(tail);
    }
  }

  lemma {:induction false} ProvidedDistinct(submitted: EntryValues, fields: seq<string>)
    requires NoRepeat(fields)
    ensures NoRepeat(ProvidedAmong(submitted, fields))
  {
    if fields != [] {
      var rest := ProvidedAmong(submitted, fields[1..]);
      ProvidedDistinct(submitted, fields[1..]);
      ProvidedMember(submitted, fields[1..], fields[0]);
      if fields[0] in submitted {
        assert ([fields[0]] + rest)[1..] == rest;
      } else {
        assert [] + rest == rest;
      }
    }
  }

  lemma NoFieldTwice()
    ensures NoRepeat(ENTRY_FIELDS)
  {
    hide NoRepeat;
    forall i: nat, j: nat | i < j < |ENTRY_FIELDS|
      ensures ENTRY_FIELDS[i] != ENTRY_FIELDS[j]
    {
      EntryFieldsDiffer(i, j);
    }
    DifferMeansNoRepeat(ENTRY_FIELDS);
  }

  lemma ReceivedOnePerField(env: Env, c: string, r: ReceiptRequest)
    requires Validate(env, ReceivedInput(c, r)).Ok?
    ensures OneRowPerField(Validate(env, ReceivedInput(c, r)).value)
  {
    hide Validate, OneRowPerField, ProvidedAmong, NoRepeat;
    AcceptedRows(env, ReceivedInput(c, r));
    NoFieldTwice();
    ProvidedDistinct(r.submitted, ENTRY_FIELDS);
    var provided, rows := Provided(r.submitted), ReceivedInput(c, r).values;
    assert forall i :: 0 <= i < |rows| ==> rows[i].fieldName == provided[i];
    forall i, j | 0 <= i < j < |rows|
      ensures rows[i].fieldName != rows[j].fieldName
    {
      NoRepeatAt(provided, i, j);
    }
    RowsOnePerField(rows);
  }

  lemma FindingHeaders(c: string, r: ReceiptRequest, exceptionId: string)
    ensures HeaderAcceptable(ValidatedInput(c, r)) <==> r.principal != ""
    ensures HeaderAcceptable(OpenedInput(c, r, exceptionId)) <==> r.principal != ""
    ensures ValidatedInput(c, r).values == OpenedInput(c, r, exceptionId).values == FindingRows(r.evaluation.findings)
  {
    hide FindingRows;
  }

  /** An entry evaluated by the rules as they are written cannot be received, under any request, when both transport
      documents are given and the air waybill number is malformed, or when its description is short and general. */
  lemma ClashIsNotReceived(env: Env, rules: seq<Rule<EntryValues>>, record: EntryValues, r: ReceiptRequest)
    requires AsWritten(rules, record) && Turns(rules, record).Ok? && r.evaluation == Verdict(Turns(rules, record).value)
    requires DocumentsClash(record) || DescriptionClash(record)
    ensures !ReceiptAcceptable(env, r)
  {
    hide AsWritten, Turns, DocumentsClash, DescriptionClash, OneFindingPerField, SubmittedClean, FindingsClean, ReceiptAcceptable;
    ClashIff(rules, record);
    AcceptableParts(env, r);
  }

  /** So "goods" alone keeps an entry from being received. */
  lemma GoodsIsNotReceived(env: Env, rules: seq<Rule<EntryValues>>, record: EntryValues, r: ReceiptRequest)
    requires AsWritten(rules, record) && Turns(rules, record).Ok? && r.evaluation == Verdict(Turns(rules, record).value)
    requires "goods_description" in record && record["goods_description"] == "goods"
    ensures !ReceiptAcceptable(env, r)
  {
    hide AsWritten, Turns, DocumentsClash, DescriptionClash, ReceiptAcceptable;
    GoodsClash(record);
    ClashIsNotReceived(env, rules, record, r);
  }

  /** One entry after another on a chained trail. */
  lemma ChainGrows(env: Env, trail: seq<AuditEntry>, told: seq<AppendInput>, entry: AppendInput, now: string, e: AuditEntry)
    requires WellChained(env.hash, trail) && AllTold(env, trail, told) && NextEntry(env, trail, entry, now) == Ok(e)
    ensures WellChained(env.hash, trail + [e]) && AllTold(env, trail + [e], told + [entry]) && e.payload.occurredAt == now
  {
    hide WellChained, Validate, NextEntry;
    AppendKeepsChain(env, trail, entry, now);
    assert Told(env, e, entry);
  }

  lemma ReceiptAlone(env: Env, c: string, r: ReceiptRequest, refs: Option<Opened>, trail: seq<AuditEntry>, now: string)
    requires WellChained(env.hash, trail) && AllTold(env, trail, PastInputs(c, Receipt(r, ReceiptCommit(refs))))
    requires refs.Some? <==> r.evaluation.outcome == FAIL
    requires refs.Some? ==> |r.evaluation.findings| >= 1
    requires forall i :: 0 <= i < |trail| ==> trail[i].payload.occurredAt == now
    ensures var db := NewCase(r, refs, trail);
            TablesOk(env, c, db) && IsNewCase(db, r, refs) && ReceiptTrail(trail, c, r, refs, now) && db.trail == trail
  {
    hide WellChained, AllTold, PastInputs, PastRows, Publish, StoredValues, OutcomeOf, StoredAs, ReceiptTrail;
    var program := Receipt(r, ReceiptCommit(refs));
    var tx := Tx(program, PastRows(program), trail, HeldAt(program, Idle), Idle, now);
    assert NO_CASE.trail + trail == trail;
    assert TxOk(env, c, NO_CASE, tx);
    NoCaseOk(env, c);
    hide TablesOk, TxOk;
    CommitKeepsTables(env, c, NO_CASE, tx);
    ReceiptPublishes(tx, r, refs);
    ReceiptTells(env, c, trail, r, refs, now);
    NewCaseIs(r, refs, trail);
  }

  lemma NoCaseOk(env: Env, c: string)
    ensures TablesOk(env, c, NO_CASE)
  {}

  // ---- the client ---------------------------------------------------------

  datatype ServiceError = Refused | AuditRefused(error: WriteError) | Failed

  /** A case's committed rows and the view of the transaction open on it. */
  class CaseStore {
    var db: Tables
    var work: Tables

    constructor ()
      ensures db == NO_CASE
    {
      db, work := NO_CASE, NO_CASE;
    }

    method Begin()
      modifies this`work
      ensures work == db
    {
      work := db;
    }

    method Commit()
      modifies this`db
      ensures db == work
    {
      db := work;
    }

    method Rollback()
      modifies this`work
      ensures work == db
    {
      work := db;
    }

    /** On a chained trail it succeeds exactly when the entry is acceptable with one row for each field, and the trail is
        then chained with the entry at its end. */
    method Append(env: Env, entry: AppendInput, now: string) returns (r: Result<AuditEntry, WriteError>)
      modifies this`work
      ensures WellChained(env.hash, old(work.trail)) ==>
                && (r.Ok? <==> Validate(env, entry).Ok? && OneRowPerField(Validate(env, entry).value))
                && WellChained(env.hash, work.trail)
                && (r.Ok? ==>
                      && Reports(r.value.payload, entry) && r.value.payload.occurredAt == now
                      && r.value.payload.sequence == |old(work.trail)| + 1)
      ensures r == NextEntry(env, old(work.trail), entry, now)
      ensures work == if r.Ok? then old(work).(trail := old(work.trail) + [r.value]) else old(work)
    {
      hide WellChained, Validate, OneRowPerField, NextEntry, Reports;
      if WellChained(env.hash, work.trail) {
        AppendKeepsChain(env, work.trail, entry, now);
      }
      r := NextEntry(env, work.trail, entry, now);
      if r.Ok? {
        work := work.(trail := work.trail + [r.value]);
      }
    }

    /** The conditional update that guards generation. */
    method MarkRecommendation(status: RecommendationStatus, failure: Option<FailureReason>) returns (updated: bool)
      modifies this`work
      ensures updated <==> old(work).recommendation.Some? && old(work).recommendation.value.status == PENDING
      ensures work == if !updated then old(work)
                      else old(work).(recommendation :=
                                        Some(old(work).recommendation.value.(status := status, failure := failure)))
    {
      updated := work.recommendation.Some? && work.recommendation.value.status == PENDING;
      if updated {
        work := work.(recommendation := Some(work.recommendation.value.(status := status, failure := failure)));
      }
    }

    /** One receipt. It commits a whole case exactly when it is acceptable and its entry number is free, and otherwise
        leaves no trace. */
    method RunReceipt(env: Env, c: string, r: ReceiptRequest, ids: Opened, now: string, numberTaken: bool)
      returns (result: Result<Option<Opened>, ServiceError>)
      requires db == NO_CASE
      modifies this
      ensures result.Ok? <==> ReceiptAcceptable(env, r) && !(numberTaken && "entry_number" in r.submitted)
      ensures result.Err? ==> db == NO_CASE
      ensures result.Ok? ==>
                && result.value == (if r.evaluation.outcome == FAIL then Some(ids) else None)
                && IsNewCase(db, r, result.value) && ReceiptTrail(db.trail, c, r, result.value, now) && TablesOk(env, c, db)
    {
      hide IsNewCase, ReceiptTrail, Reports, TablesOk, NextEntry, Validate, ReceivedInput, ValidatedInput, OpenedInput, WellChained, AllTold,
        StoredValues, OutcomeOf, SubmittedClean, FindingsClean, HeaderAcceptable, FindingRows, OneRowPerField, OneFindingPerField,
        ColumnsHold, EvaluationStorable;
      ReceivedIff(env, c, r);
      FindingHeaders(c, r, ids.exceptionId);
      FindingsIff(env, ValidatedInput(c, r), r.evaluation.findings);
      FindingsIff(env, OpenedInput(c, r, ids.exceptionId), r.evaluation.findings);
      AcceptableParts(env, r);
      NoCaseOk(env, c);
      ChainOf(env, c, NO_CASE);
      NothingTold(env);
      Begin();
      if !ColumnsHold(StoredValues(r.submitted)) || Duplicate(r, numberTaken) {
        Rollback();
        return Err(Failed);
      }
      work := work.(entry := Some(EntryRow(StoredValues(r.submitted), OutcomeOf(r), r.principal)));
      if Validate(env, ReceivedInput(c, r)).Ok? {
        ReceivedOnePerField(env, c, r);
      }
      var received := Append(env, ReceivedInput(c, r), now);
      if received.Err? {
        Rollback();
        return Err(AuditRefused(received.error));
      }
      ChainGrows(env, [], [], ReceivedInput(c, r), now, received.value);
      ghost var told := [] + [ReceivedInput(c, r)];
      if !EvaluationStorable(r.evaluation) {
        Rollback();
        return Err(Failed);
      }
      StorableFindings(r.evaluation);
      work := work.(validation := Some(ValidationRow(r.evaluation.outcome, |r.evaluation.findings|)));
      if Validate(env, ValidatedInput(c, r)).Ok? {
        FindingsOnePerField(env, ValidatedInput(c, r), r.evaluation.findings);
        FindingsOnePerField(env, OpenedInput(c, r, ids.exceptionId), r.evaluation.findings);
      }
      ghost var first := work.trail;
      var validated := Append(env, ValidatedInput(c, r), now);
      if validated.Err? {
        Rollback();
        return Err(AuditRefused(validated.error));
      }
      ChainGrows(env, first, told, ValidatedInput(c, r), now, validated.value);
      told := told + [ValidatedInput(c, r)];
      if r.evaluation.outcome == PASS {
        assert told == PastInputs(c, Receipt(r, ReceiptCommit(None)));
        ReceiptAlone(env, c, r, None, work.trail, now);
        Commit();
        return Ok(None);
      }
      // A FAIL has findings here: the counts have just passed their check.
      work := work.(exception := Some(ExceptionRow(ids.exceptionId, OPEN, None)));
      work := work.(recommendation := Some(RecommendationRow(ids.recommendationId, PENDING, None)));
      ghost var second := work.trail;
      var openedEntry := Append(env, OpenedInput(c, r, ids.exceptionId), now);
      // The same rows have just passed: this append cannot be refused.
      ChainGrows(env, second, told, OpenedInput(c, r, ids.exceptionId), now, openedEntry.value);
      told := told + [OpenedInput(c, r, ids.exceptionId)];
      assert told == PastInputs(c, Receipt(r, ReceiptCommit(Some(ids))));
      ReceiptAlone(env, c, r, Some(ids), work.trail, now);
      Commit();
      return Ok(Some(ids));
    }

    /** One decision. It commits exactly when it is acceptable, and otherwise leaves no trace. */
    method RunDecision(env: Env, c: string, d: DecisionRequest, id: string, now: string)
      returns (r: Result<AuditEntry, ServiceError>)
      requires TablesOk(env, c, db) && db.exception.Some?
      modifies this
      ensures old(db).recommendation.Some? && (r.Ok? <==> Acceptable(env, old(db), d))
      ensures r.Err? ==> db == old(db)
      ensures r.Ok? ==>
                && ClosedAsAsked(old(db), db, d) && db.trail == old(db).trail + [r.value] && db.decisions[0].id == id
                && r.value.payload.occurredAt == now
      ensures TablesOk(env, c, db)
    {
      hide TablesOk, KnownClean, BodyAcceptable, MakePlan, NextEntry, Validate, OneRowPerField, DecidedInput, ClosedAsAsked,
        DecisionRowFor, SubmitsNoSecret, BodyStorable, ReasonStorable, ValuesStorable, ProposalsStorable;
      CaseIsClean(env, c, db);
      Begin();
      if work.exception.value.state != OPEN {
        Rollback();
        return Err(Refused);
      }
      NothingDecided(env, c, db);
      var rec := work.recommendation.value;
      if d.body.recommendationId.Some? && d.body.recommendationId.value != rec.id {
        Rollback();
        return Err(Refused);
      }
      MakePlanIff(d.body, rec.status, work.proposals, work.entry.value.values);
      var planned := MakePlan(d.body, rec.status, work.proposals, work.entry.value.values);
      if planned.Err? {
        Rollback();
        return Err(Refused);
      }
      var plan := planned.value;
      PlanSees(d.body, rec.status, work.proposals, work.entry.value.values);
      PlanStorableIff(d.body, rec.status, work.proposals, work.entry.value.values);
      var ex := work.exception.value.id;
      if !ReasonStorable(plan.decisionType, plan.reason) {
        Rollback();
        return Err(Failed);
      }
      work := work.(decisions := work.decisions + [DecisionRowFor(d, rec.id, plan, id)]);
      if !ValuesStorable(plan.values) {
        Rollback();
        return Err(Failed);
      }
      work := work.(decisionValues := work.decisionValues[id := plan.values]);
      work := work.(exception := Some(work.exception.value.(state := plan.resulting, decisionId := Some(id))));
      var appended := Append(env, DecidedInput(c, ex, rec.id, id, d, plan), now);
      DecidedInputIff(env, c, ex, rec.id, id, d, plan, db.proposals, db.entry.value.values);
      DecidedOnePerField(env, c, ex, rec.id, id, d, plan, db.proposals, db.entry.value.values);
      ChainOf(env, c, db);
      if appended.Err? {
        Rollback();
        return Err(AuditRefused(appended.error));
      }
      DecisionAlone(env, c, db, d, plan, id, now, appended.value);
      assert work.decisions == [DecisionRowFor(d, rec.id, plan, id)];
      RowId(d, rec.id, plan, id);
      Commit();
      return Ok(appended.value);
    }

    /** One generation job with the provider's reply. A secret among the proposals rolls the first transaction back and
        a second one records that the content was filtered; a throw or rows the tables refuse leave everything as it was. */
    method RunGenerationJob(env: Env, c: string, reply: ProviderReply, now: string, later: string)
      requires TablesOk(env, c, db) && db.exception.Some?
      modifies this
      ensures TablesOk(env, c, db) && old(db).recommendation.Some?
      ensures old(db).recommendation.value.status != PENDING || reply.Throws? ==> db == old(db)
      ensures old(db).recommendation.value.status == PENDING ==>
                match reply
                case Throws => true
                case Failure(reason) => Answered(old(db), db, UNAVAILABLE, Some(reason), [], now)
                case Success(ps) =>
                  if !ProposalsStorable(RealFields(ps)) then db == old(db)
                  else if exists p :: p in RealFields(ps) && env.secretValue(p.value) then
                    Answered(old(db), db, UNAVAILABLE, Some(CONTENT_FILTERED), [], later)
                  else Answered(old(db), db, AVAILABLE, None, RealFields(ps), now)
    {
      hide TablesOk, KnownClean, NextEntry, Validate, OneRowPerField, GeneratedInput, Answered, RealFields, ProposalsStorable;
      CaseIsClean(env, c, db);
      if db.recommendation.value.status != PENDING || reply.Throws? {
        return;
      }
      if reply.Failure? {
        WriteUnavailable(env, c, reply.reason, now);
        return;
      }
      var ps := RealFields(reply.proposed);
      var ex, rec, entry := db.exception.value.id, db.recommendation.value.id, db.entry.value.values;
      Begin();
      var updated := MarkRecommendation(AVAILABLE, None);
      if !ProposalsStorable(ps) {
        Rollback();
        return;
      }
      NothingProposed(env, c, db);
      assert [] + ps == ps;
      work := work.(proposals := work.proposals + ps);
      var input := GeneratedInput(c, ex, rec, entry, ps);
      var appended := Append(env, input, now);
      GeneratedIff(env, c, ex, rec, entry, ps, db.proposals);
      GeneratedOnePerField(env, c, ex, rec, entry, ps);
      ChainOf(env, c, db);
      if appended.Err? {
        Rollback();
        WriteUnavailable(env, c, CONTENT_FILTERED, later);
        return;
      }
      AvailableAlone(env, c, db, ps, now, appended.value);
      Commit();
    }

    /** The second, separate transaction for a terminal UNAVAILABLE. */
    method WriteUnavailable(env: Env, c: string, reason: FailureReason, now: string)
      requires TablesOk(env, c, db) && db.entry.Some? && db.exception.Some? && db.recommendation.Some?
      modifies this
      ensures TablesOk(env, c, db)
      ensures if old(db).recommendation.value.status == PENDING then Answered(old(db), db, UNAVAILABLE, Some(reason), [], now)
              else db == old(db)
    {
      hide TablesOk, NextEntry, Validate, OneRowPerField, UnavailableInput, Answered;
      Begin();
      var updated := MarkRecommendation(UNAVAILABLE, Some(reason));
      if !updated {
        Commit();
        return;
      }
      var input := UnavailableInput(c, db.exception.value.id, db.recommendation.value.id);
      var appended := Append(env, input, now);
      UnavailableAccepted(env, c, db.exception.value.id, db.recommendation.value.id);
      ChainOf(env, c, db);
      UnavailableAlone(env, c, db, reason, now, appended.value);
      Commit();
    }
  }

  lemma ChainOf(env: Env, c: string, db: Tables)
    requires TablesOk(env, c, db)
    ensures WellChained(env.hash, db.trail)
  {
    hide CaseOk;
  }

  lemma NothingTold(env: Env)
    ensures AllTold(env, [], [])
  {}

  lemma AcceptableParts(env: Env, r: ReceiptRequest)
    ensures ReceiptAcceptable(env, r) <==>
            && r.principal != "" && SubmittedClean(env, r.submitted) && FindingsClean(env, r.evaluation.findings)
            && OneFindingPerField(r.evaluation.findings)
            && ColumnsHold(StoredValues(r.submitted)) && EvaluationStorable(r.evaluation)
  {}

  lemma StorableFindings(e: Evaluation)
    requires EvaluationStorable(e)
    ensures e.outcome == PASS <==> e.findings == []
  {}

  lemma RowId(d: DecisionRequest, rec: string, plan: Plan, id: string)
    ensures DecisionRowFor(d, rec, plan, id).id == id
  {}

  lemma NothingProposed(env: Env, c: string, db: Tables)
    requires TablesOk(env, c, db) && db.recommendation.Some? && db.recommendation.value.status == PENDING
    ensures db.proposals == []
  {
    hide WellChained, EntryClean, ProposalsOk, HeadOk, TailOk, DecisionOk;
  }

  /** The writer refuses generated content only for a secret among the proposals. */
  lemma GeneratedIff(env: Env, c: string, ex: string, rec: string, entry: EntryValues, ps: seq<Proposal>, known: seq<Proposal>)
    requires KnownClean(env, known, entry) && AllRealFields(ps)
    ensures Validate(env, GeneratedInput(c, ex, rec, entry, ps)).Ok? <==> !exists p :: p in ps && env.secretValue(p.value)
  {
    hide Validate, RowAcceptable, DistinctProposals;
    var input := GeneratedInput(c, ex, rec, entry, ps);
    ValidateIff(env, input);
    forall i | 0 <= i < |ps|
      ensures RowAcceptable(env, input.values[i]) <==> !env.secretValue(ps[i].value)
    {
      ProposalRowIff(env, entry, ps, i, known);
    }
    if Validate(env, input).Ok? {
      forall p | p in ps
        ensures !env.secretValue(p.value)
      {
        var i :| 0 <= i < |ps| && ps[i] == p;
        assert RowAcceptable(env, input.values[i]);
      }
    }
  }

  lemma ProposalRowIff(env: Env, entry: EntryValues, ps: seq<Proposal>, i: nat, known: seq<Proposal>)
    requires KnownClean(env, known, entry) && i < |ps| && ps[i].fieldName in ENTRY_FIELDS
    ensures RowAcceptable(env, ProposalRows(entry, ps)[i]) <==> !env.secretValue(ps[i].value)
  {
    FieldNamesAreSafe();
  }
}
