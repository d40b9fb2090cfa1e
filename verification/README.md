# A verified model of the governed case pipeline

The server receives a cargo entry, validates it, opens an exception when a rule fails, asks an AI provider for a
recommendation, lets one human specialist decide, and writes every step into a hash-chained audit log. This project
models that pipeline in Dafny and proves what its design promises.

`dafny verify dfyconfig.toml` checks everything.

## What is modelled

**The life of a case under racing transactions** (`Lifecycle`, `CaseInvariant`, `CaseSteps`, `CaseCommits`, `Protocol`,
`CaseTheorems`, `CaseRefusals`, `CaseWaits`, `CaseProgress`, `CaseClosing`, `CaseDeadlock`, `CaseReplay`, `CaseSystem`). A
case is its committed rows plus any number of transactions at work on it: receipts, generation jobs, decisions. Each
transaction has a program counter, a private buffer of rows and audit entries, and the row locks it holds. One move is one SQL statement: it reads the committed rows and its own writes
(READ COMMITTED, since `BEGIN` is plain), takes at most one lock, and either goes on, commits or fails. COMMIT publishes
the buffer at once, ROLLBACK may come at any moment and discards it. Locks are the exception row, the case anchor, the
recommendation row and the key of a freshly inserted entry; an audit entry that names the exception takes its row for key
share by the foreign key, which waits for a decision that has it for update. The conditional `UPDATE … WHERE status = 'PENDING'`
is a step that takes the row's lock and then looks at the status. `Inv` is the invariant; `MoveKeepsInv` says every move
keeps it and `RunKeepsInv` that it holds at every point of every run, so each theorem about a run holds under every
interleaving with aborts anywhere. `CaseWaits` finds the one cycle of waits the protocol has; `CaseProgress` and
`CaseClosing` let those at work run on from any reachable state, giving up at most its victim. `CaseSystem` shows that one case of a system of any number of cases sees a run of its own.

**The same transactions as the service runs them** (`CaseService`). The class `CaseStore` is one client: begin, commit,
rollback, `append`, the conditional update, and the three transactions written out as statements on its fields, each with
the exact condition under which it commits and the exact rows it leaves.

**The audit writer and the hash chain** (`AuditWriter`, `SecretNames`, `HashChain`, `CanonicalJson`, `KeyOrder`,
`Utf8`, `Text`, `Digits`).
The canonical printer has a parser that undoes it; hence equal preimages mean equal records, and two chains with one head
hash either tell the same history or exhibit two explicit inputs with one hash. The hash is any function from bytes to 32
bytes; no injectivity is assumed of it (it would be contradictory), so the theorem names the collision instead.

**Decisions** (`Decisions`, `DecisionRules`, `Replay`): what each decision type adopts, its provenance, when the rules, the
writer and the tables accept it, and when a resubmission is a replay.

**Rules and dates** (`RuleEngine`, `Registry`, `RuleClashes`, `CivilDate`, `Calendar`, `ArrivalWindow`): the evaluation loop
against its declared meaning, which rules can be reported about one field, the boot check of the registry with Kahn's
algorithm on a map deleted from while it is walked, and RIV-132's comparison of date strings against day arithmetic.

**The edges** (`Worker`, `NumericGate`, `FixedScale`, `DecimalText`, `Throttle`, `ProviderOutput`): the bounded dispatcher, the
numeric gate, fixed-scale decimal tokens, the sign-in throttle, and the schema check on a provider's answer.

`Env` holds what the model leaves abstract: the denylist on values and the hash function. Strings are sequences of Unicode
scalar values; key order is by UTF-16 code unit, and lengths that the code takes with `length` count UTF-16 units.

## What the proofs found

* With an AVAILABLE recommendation that proposes nothing, EDIT_APPROVE is declared permitted and can never succeed
  (`DecisionRules.PermittedIff`).
* A job and a decision on one case can deadlock. The decision has the exception's row and wants the case anchor; the job
  has the anchor and, to insert its audit entry, needs the exception's row for the foreign key (`0007_audit.sql:10`). The
  database aborts one of the two, so an acceptable decision can fail, or a recommendation stay PENDING, for no reason of its
  own (`CaseDeadlock.DeadlockReachable`). It is the only cycle of waits there is (`CaseWaits.WaitCycleIff`), and the only way in
  which an acceptable decision fails (`CaseWaits.AcceptableAdvances`).
* Two reported rules with one primary field make an entry that cannot be received: `audit_entry_values` has the key
  `(audit_entry_id, field_name)`, so the VALIDATION_COMPLETED entry is refused and the receipt rolls back. Of the thirty-one
  rules this happens exactly to RIV-091 with RIV-092, which the description "goods" breaks, and to RIV-071 with RIV-073, which
  an entry with both transport documents and a malformed air waybill number breaks (`RuleClashes.ClashIff`,
  `CaseService.GoodsIsNotReceived`). The documentation of the engine promises that every finding is shown.
* The boot check accepts an acyclic registry in which a rule requires a later one; the loop then misjudges some record.
  It decides every record exactly when no rule requires itself or a later one (`Registry.InOrderIff`), which holds of the
  thirty-one rules (`Registry.RegistryDecides`).
* RIV-132 equals day arithmetic exactly for receipts from the year 100 to 180 days before the end of 9999
  (`ArrivalWindow.WindowIff`); before that `Date.UTC` reads two-digit years as the twentieth century, after it five-digit
  years compare as strings before four-digit ones.
* A replay compares neither `recommendation_id` nor omitted values, although the comment on `decisionMatchesReplay` says
  the former is compared; the model follows the code. The comparison counts values, so with a field submitted twice it
  decides nothing: it may refuse the same fields and texts and accept others (`Replay.CountingDecidesIff`,
  `Replay.CanBeMistakenIff`). The route admits a repeated field, and the look-up runs before the check for one.
* The service counts a reason in UTF-16 units, the tables in characters, so a reason of ten units and fewer characters
  passes the service and is refused by the table (`DecisionRules.FiveFacesFail`). An empty submitted
  value is refused by the table only.
* Numerals with redundant leading zeros keep them and their minus sign in the fixed-scale token, so equal values can get
  different tokens (`FixedScale.RedundantZeros`).

## Model

| member | source | states |
|---|---|---|
| Protocol.MoveKeepsInv | server/src/services/decision.service.ts:188-367 | every statement, commit, failure or rollback of any receipt, job or decision keeps the whole invariant of the case, whoever else is at work |
| Protocol.RunKeepsInv | server/src/db/tx.ts:50-69 | the invariant holds at every point of every run |
| CaseSteps.AppendStepKeeps | server/src/services/audit/writer.ts:302-402 | a statement of `append` under interleaving continues the committed chain; it fails only for what the check refuses or for two rows of one field, never for a hole or a taken number |
| CaseSteps.AppendRunIsAtomic | server/src/services/audit/writer.ts:295-447 | the five statements of `append` without a commit in between are the one atomic append: same entry or same error, and the case's lock stays held |
| CaseSteps.ReceiptStepKeeps | server/src/services/receipt.service.ts:173-305 | each statement of a receipt keeps its part of the invariant and takes at most the lock it waited for |
| CaseSteps.JobStepKeeps | server/src/ai/job.ts:48-249 | each statement of a job does, the rollback-then-second-transaction path included |
| CaseSteps.DecisionStepKeeps | server/src/services/decision.service.ts:188-351 | each statement of a decision does |
| CaseSteps.HeldKeeps | server/src/services/audit/writer.ts:304-308 | at every point a transaction holds exactly the locks of that point, no more and no fewer |
| CaseCommits.CommitKeepsTables | server/src/db/tx.ts:50-60 | what a transaction publishes at COMMIT leaves committed rows in order |
| CaseCommits.CommitKeepsOther | server/src/services/audit/writer.ts:304-308 | a commit leaves the invariant of every transaction that holds none of its locks intact, half-finished appends included |
| CaseTheorems.TrailIsChain | server/src/services/audit/writer.ts:310-367 | at every point of every run a committed trail is numbered 1..n, each entry linked to its predecessor's hash (32 zero bytes at 1); each hash is taken over the bytes of a text and the link, and that text, parsed, tells the entry component by component under its own keys; every entry has one row for each field, marked changed exactly when its two sides differ |
| CaseTheorems.OneWriterAtATime | server/src/services/audit/writer.ts:304-308 | whoever has uncommitted audit entries holds the case's lock and continues the committed chain, and nobody else does |
| CaseTheorems.TrailOnlyGrows | server/src/services/audit/writer.ts:369-402 | the committed trail is append-only over runs |
| CaseTheorems.RowOrderNeverMatters | server/src/db/canonical.ts:262-271 | no committed entry has two rows for a field, so any rearrangement of its rows has the same hash |
| CaseTheorems.LogRefinesTables | server/src/ai/job.ts:115-156 | folding the trail, by nothing but actions and after-state texts, gives exactly outcome, state and status of the committed rows; its length is 0, 2, or 3 plus one for an answer and one for a decision |
| CaseTheorems.TrailShape | server/src/services/receipt.service.ts:231-305 | the first actions are fixed, then at most one answer of the AI (exactly when answered) and at most one decision (exactly when closed), in either order |
| CaseTheorems.TrailTellsRows | server/src/services/decision.service.ts:337-351 | a closed case has the entry that names its decider, reason and decision; its rows give up each proposal (AI before, nothing after) exactly once, or put each decided value with its source after what it replaces; an answered case has the AI's entry with one row for each proposal in order: AI after, the received text with HUMAN before, or nothing |
| CaseTheorems.ReceivedMeansAssessed | server/src/services/receipt.service.ts:256-305 | no received case without its validation; an exception and its recommendation exist exactly on FAIL |
| CaseTheorems.ReceiptFindingsDistinct | server/migrations/0007_audit.sql:57-65 | under any interleaving a receipt that reaches its commit has at most one finding for each field |
| Protocol.ChangesAreGoverned | server/src/services/decision.service.ts:308-351 | every change of committed rows is one of three: a whole receipt of a new case (every submitted value as typed, but for an arrival date the calendar does not have; its validation; an open exception with its PENDING recommendation exactly on FAIL; two or three entries with their actors, states and one human row for each submitted field or finding), one answer of the AI with its offering entry, or one human decision with the values its body calls for and the entry that tells them |
| Protocol.HumanInTheLoop | server/src/services/decision.service.ts:310-351 | a case leaves OPEN only in the commit of one decision of a named specialist with its one matching entry |
| CaseTheorems.ClosedByHuman | server/src/services/decision.service.ts:196-221 | every closed case of a run was closed at one earlier moment by such a commit, and still has that decision |
| Protocol.ClosedIsFinal | server/src/services/decision.service.ts:208-221 | no move changes the state, the decision or the values of a closed case |
| CaseTheorems.DecidedOnce | server/src/services/decision.service.ts:208-221 | over the rest of the run a closed case keeps its one decision |
| Protocol.LosersLeaveNoTrace | server/src/services/decision.service.ts:196-221 | a decider that finds the case closed ends without effect, and two deciders are never both past the row lock |
| Protocol.RecommendationSettlesOnce | server/src/db/repositories/recommendations.ts:133-177 | a recommendation leaves PENDING only in the commit of one job, with that job's proposals, and then is fixed |
| CaseTheorems.AnsweredByJob | server/src/db/repositories/recommendations.ts:133-177 | every answered recommendation of a run was answered at one moment by one job, whose proposals are still the proposals |
| CaseTheorems.AnsweredOnce | server/src/ai/job.ts:119-122 | over the rest of the run an answered recommendation and its proposals stay |
| CaseTheorems.StatementsRunOut | server/src/ai/job.ts:48-211 | each statement brings a transaction nearer to its end, the fallback transaction included |
| CaseTheorems.JobEndsAnswered | server/src/ai/job.ts:58-197 | a job that ends of its own accord leaves a recommendation that is no longer PENDING |
| CaseTheorems.JobRefusedIff | server/src/ai/job.ts:158-188 | a job's statement fails exactly when the provider throws or the tables refuse the proposed rows; a secret is no failure but a second transaction |
| CaseRefusals.DecisionRefusedIff | server/src/services/decision.service.ts:196-351 | a decision's statement fails exactly when the case is closed, the recommendation is another, the body breaks its type's rules or the tables' length checks, the decider is unnamed, or a submitted value looks like a secret |
| CaseWaits.WaitCycleIff | server/migrations/0007_audit.sql:10 | a transaction is on a cycle of waits, of any length, exactly when it is one of the two of the deadlock: a job at its entry's insert, which by the foreign key needs the exception's row, and a decision that has that row and wants the anchor the job has |
| CaseWaits.OneDeadlock | server/migrations/0007_audit.sql:10 | there is at most one such pair at a time |
| CaseWaits.NobodyRunsIff | server/src/services/audit/writer.ts:304-308 | with transactions at work nobody can run a statement exactly when that pair is there and everyone else wants a lock too |
| CaseWaits.NobodyElse | server/src/services/audit/writer.ts:304-308 | beside the pair exactly those can run whose next statement takes no lock |
| CaseDeadlock.DeadlockReachable | server/src/services/decision.service.ts:196-311 | from any entry that is received and fails its validation, and any specialist and reason of proper length, a run leads to the deadlock, with an acceptable and up-to-date REJECT in it; nobody can run there |
| CaseWaits.JobFailsIff | server/src/ai/job.ts:134-188 | whatever races, a job is aborted exactly when its statement is refused, as above, or a decision that has the exception's row wants the anchor while the job is about to insert its entry |
| CaseWaits.ReceiptNeverWaits | server/src/services/receipt.service.ts:173-305 | a receipt can always run and is never on a cycle of waits |
| CaseTheorems.ProvenanceHolds | server/src/services/decision.service.ts:376-445 | at every moment a recorded decision's values are traceable to the case's recommendation, whatever raced: one-for-one with the proposals and HUMAN exactly when the trimmed text differs, or authored by the specialist against what was received, or none for REJECT; each has its row in the trail, and `changed_from_proposal` implies `changed` there |
| CaseWaits.DecisionFailsIff | server/src/services/decision.service.ts:196-351 | whatever races, a decision is aborted exactly when its statement is refused, as above, or it wants the anchor of a job that is about to insert its entry |
| CaseWaits.AcceptableAdvances | server/src/services/decision.service.ts:223-351 | an acceptable, up-to-date decision waits only at its first statement or for the anchor; every statement it can run succeeds and brings it nearer to its commit; only the deadlock can abort it |
| CaseProgress.RunsAreBounded | server/src/ai/job.ts:48-211 | however the statements of those at work are interleaved, there are at most as many as a bound fixed by where they stand |
| CaseProgress.LetHoldersFinish | server/src/db/tx.ts:50-69 | everybody who holds a lock can run on to its end, with at most one of them rolled back, out of a cycle of waits, whichever of the two the database picks; the others make no move |
| CaseProgress.EveryoneCanEnd | server/src/db/tx.ts:50-69 | from every reachable world everybody can, with at most that one victim |
| CaseClosing.WhoChanges | server/src/services/decision.service.ts:308-351 | without a decision among those that move the case stays as open or closed as it is, and without a job as answered |
| CaseClosing.OpenCaseCanClose | server/src/services/decision.service.ts:244-351 | no open case is stuck: from every reachable state of an exception those at work with a lock run on to their ends, at most one of them the victim of a deadlock, and then any decision the rules still accept begins and runs through to its commit with its exact rows; those at work change nothing but to close the case, which needs a decision among them, or to answer it, which needs a job |
| CaseClosing.RejectCommits | server/src/services/decision.service.ts:281-306 | from every reachable state of an exception a REJECT with a trimmed reason of ten characters to two thousand units closes it in this way, unless one of those at work already has |
| CaseClosing.ApproveCommits | server/src/services/decision.service.ts:244-262 | so does an APPROVE when the recommendation is AVAILABLE |
| CaseClosing.EchoCommits | server/src/services/decision.service.ts:263-280 | so does an EDIT_APPROVE that repeats the proposals, when there is one |
| CaseReplay.ReplayReturnsTheRecord | server/src/services/decision.service.ts:166-182 | at any later moment the recorded body under its key gets the record back up to value order, and nothing is written |
| CaseReplay.RecordOrKeyReused | server/src/services/decision.service.ts:166-182 | any body at all under that key gets the record or a refusal, and the record exactly when it has the type, the normalised reason and, if it names values, as many as recorded, no field with two and none that is not recorded; without a repeated field, exactly when its field-to-value map is the recorded one |
| CaseReplay.RecordStands | server/src/services/decision.service.ts:561-611 | decision row, values, exception and the one entry about the decision are found again at any later moment |
| CaseReplay.FreshIff | server/src/services/decision.service.ts:169-178 | the transaction begins exactly when no key was given or no decision is recorded under it; otherwise the key is refused exactly when the body does not match that decision |
| CaseSystem.Projection | server/src/db/tx.ts:38-70 | what one case sees of a run over any number of cases is a run of that case |
| CaseSystem.EveryCaseInOrder | server/src/services/audit/writer.ts:304-402 | in every reachable state of the whole system every case satisfies the invariant and its log tells its rows |
| CaseService.CaseStore.RunReceipt | server/src/services/receipt.service.ts:173-342 | commits a whole new case exactly when the specialist is named, the values fit their columns, the entry number is free, nothing looks like a secret, the findings are about distinct entry fields and the evaluation meets the checks of its tables; the entry then holds every submitted value but a mistyped arrival date, and the trail one human row for each submitted field and for each finding; otherwise leaves no trace |
| CaseService.CaseStore.RunDecision | server/src/services/decision.service.ts:188-367 | commits exactly when acceptable, leaving the asked-for decision, the values its body calls for with their provenance, the new state, and one more entry at this time whose rows tell them or the proposals declined; otherwise leaves no trace |
| CaseService.CaseStore.RunGenerationJob | server/src/ai/job.ts:48-211 | for every provider reply the exact outcome: unchanged, AVAILABLE with the kept proposals, UNAVAILABLE with the reason, or CONTENT_FILTERED exactly when a proposal looks like a secret; an answer adds one entry of the AI whose rows put each proposal, by the AI, after the received text, by a human |
| CaseService.CaseStore.WriteUnavailable | server/src/ai/job.ts:222-249 | the separate transaction answers a PENDING recommendation and changes nothing otherwise |
| CaseService.CaseStore.Append | server/src/services/audit/writer.ts:295-447 | on a chained trail it succeeds exactly when the entry is acceptable with one row for each field; the trail is then chained with an entry at its end that reports what was given component by component, its rows marked changed exactly when their sides differ; otherwise as it was |
| CaseService.RealFieldsExact | server/src/ai/job.ts:109-112 | of an answer exactly the proposals about entry fields are kept, all of them when all are |
| CaseService.ValidatedAnswerIsWritten | server/src/ai/outputSchema.ts:59-82 | no proposal of an answer that passed the schema is dropped or refused by the tables |
| AuditWriter.ValidateIff | server/src/services/audit/writer.ts:148-283 | an entry passes exactly when header and every row are acceptable, as spelled out action by action, and then its rows are stored one for one as given, each marked changed exactly when its two sides differ verbatim |
| AuditWriter.NormaliseValuesIff | server/src/services/audit/writer.ts:174-243 | the rows pass exactly when each names a safe entry field, holds no secret, has a side present and an origin for it |
| AuditWriter.FirstRefusal | server/src/services/audit/writer.ts:174-243 | the error is that of the first unacceptable row: forbidden content if it looks like a secret, an invalid entry otherwise |
| AuditWriter.OnlySecretsRefuse | server/src/services/audit/writer.ts:203-222 | well-formed rows about entry fields are refused exactly for a secret value |
| AuditWriter.FieldNamesAreSafe | server/src/services/audit/writer.ts:122-124 | the denylist on names spares all fourteen entry fields |
| SecretNames.SecretAnywhere | server/src/services/audit/writer.ts:122-124 | each word of the denylist, in any case and with anything around it, makes a name a secret one |
| AuditWriter.ChainedNumbers | server/src/services/audit/writer.ts:310-348 | on a chained trail max+1 is the next free number and the row before it is the last one |
| AuditWriter.AppendKeepsChain | server/src/services/audit/writer.ts:302-402 | appending keeps the chain and succeeds exactly when the entry is acceptable with one row per field; the new entry reports what was given, numbered, linked and timed |
| AuditWriter.AuditTable.Append | server/src/services/audit/writer.ts:295-447 | one row more for the entry's case, numbered and linked there, that reports what was given component by component, or the table unchanged; every case's chain is kept |
| AuditWriter.TableGrows | server/src/services/audit/writer.ts:310-348 | an entry appended to one case keeps the chains of all cases |
| HashChain.PayloadTextIffSameRecord | server/src/db/canonical.ts:257-290 | two payloads print alike exactly when they are the same record: equal but for an order of rows that the stable sort undoes |
| HashChain.HashInputInjective | server/src/db/canonical.ts:290-293 | the hashed bytes, text and fixed 32-byte suffix, fix the record and the link |
| HashChain.HashedTextTells | server/src/db/canonical.ts:257-290 | the hashed text, parsed, is an object of fourteen distinct keys that tells the record: each scalar under its own key, actions, actors and origins by their names, null for what is absent, and the rows sorted by field with six keys each |
| HashChain.EntryHashCovers | server/src/db/canonical.ts:290-293 | an entry's hash is taken over the UTF-8 bytes of such a text and then its link |
| HashChain.RowOrderIrrelevant | server/src/db/canonical.ts:262-271 | with one row per field the record and its hash do not depend on the order of the rows |
| HashChain.RepeatedRowOrderMatters | server/src/db/canonical.ts:262-263 | with a repeated field they do |
| HashChain.ChainExtends | server/src/services/audit/writer.ts:328-367 | an entry numbered and linked from a chain extends the chain |
| HashChain.TamperEvidence | server/src/db/canonical.ts:257-294 | two chains with the same head hash have the same length and the same records at every position, or there is an explicit pair of different inputs with one hash |
| HashChain.RecordsFixHashes | server/src/services/audit/writer.ts:350-367 | conversely the records alone fix every link and hash of a chained trail |
| CanonicalJson.CanonicalRoundTrip | server/src/db/canonical.ts:141-196 | the parser gives back the normal form of every printed value and stops where it ends, whatever follows |
| CanonicalJson.CanonicalInjective | server/src/db/canonical.ts:141-196 | two values print alike exactly when they have the same normal form |
| CanonicalJson.ObjectPrintsItsMap | server/src/db/canonical.ts:178-191 | objects without repeated keys print alike exactly when they are the same map of keys to normal forms |
| CanonicalJson.NormalHas | server/src/db/canonical.ts:178-191 | sorting an object's keys leaves every key with its own value, and no other |
| CanonicalJson.QuoteIsShortest | server/src/db/canonical.ts:141-196 | of all spellings of a string that the parser reads, the printer's escapes are the one shortest |
| CanonicalJson.Serialise | server/src/db/canonical.ts:141-196 | the loops over array elements and sorted keys print the canonical text |
| KeyOrder.SortAgreesIff | server/src/db/canonical.ts:262-263 | the stable sort maps two lists to one result exactly when they agree, in order, under every key |
| KeyOrder.LessIff | server/src/db/canonical.ts:178-185 | the order of keys is the order of their UTF-16 code units, surrogate pairs included |
| Utf8.EncodeInjective | server/src/db/canonical.ts:290-290 | different texts have different UTF-8 bytes |
| Utf8.EncodeDecodes | server/src/db/canonical.ts:290-290 | the bytes read back, by the layout of section 3 of RFC 3629, as the text's code points |
| Decisions.PlanTraceable | server/src/services/decision.service.ts:236-306 | what each decision type adopts is traceable to the recommendation and to the body: the proposals as they stand, the submitted values in their order, or none; and its audit rows tell exactly what was adopted, or give up each proposal exactly once |
| Decisions.LoadsInOrder | server/src/db/repositories/recommendations.ts:98-112 | proposals and recorded values are read in the order of their fields, none lost and none added |
| Decisions.EditAgainstIff | server/src/services/decision.service.ts:376-388 | EDIT_APPROVE against a proposal succeeds exactly when the two field sets are equal |
| Decisions.EditAnswers | server/src/services/decision.service.ts:390-405 | and then answers every proposal exactly once, HUMAN exactly when the trimmed texts differ |
| Decisions.ChangedIsAudited | server/src/services/audit/writer.ts:229-240 | a value changed from its proposal has a row marked changed: verbatim comparison there, trimmed comparison here |
| Decisions.TraceableSurvives | server/src/services/decision.service.ts:223-231 | a later generation cannot spoil the provenance of a decision already made |
| DecisionRules.MakePlanIff | server/src/services/decision.service.ts:236-306 | the branch goes through exactly when the rules of the decision type are met |
| DecisionRules.RefusalNamed | server/src/services/decision.service.ts:236-388 | and otherwise the caller gets the first broken rule of the type, an edit the exact fields that are missing and those not expected |
| DecisionRules.PlanRowsIff | server/src/services/decision.service.ts:493-501 | the writer refuses a plan's rows exactly for a submitted value that looks like a secret |
| DecisionRules.PlanStorableIff | server/migrations/0006_decisions.sql:20-49 | the tables accept a plan's rows exactly when reason and submitted values have proper lengths in characters |
| DecisionRules.FiveFacesFail | server/migrations/0006_decisions.sql:20-49 | a REJECT whose reason is five characters of two UTF-16 units each meets the rules, gets its plan and is refused by the table |
| DecisionRules.PlanOnePerField | server/src/services/decision.service.ts:493-501 | a plan never has two audit rows for one field |
| DecisionRules.PermittedIff | server/src/services/caseRead.service.ts:139-147 | a type is declared permitted exactly when the case is open and some decision of that type can succeed, except EDIT_APPROVE with an available recommendation that proposes nothing |
| Replay.MatchesIff | server/src/services/decision.service.ts:523-554 | a body without a repeated field matches exactly when type, normalised reason and, if supplied, the field-to-value map agree |
| Replay.ValuesMatchExactly | server/src/services/decision.service.ts:540-553 | whatever is submitted, the comparison holds exactly when there are as many values as stored, no field has two values, and every field and value is stored |
| Replay.CountingDecidesIff | server/src/services/decision.service.ts:540-553 | it decides equality of the two maps, for everything that can be stored, exactly when no field is submitted twice |
| Replay.CanBeMistakenIff | server/src/services/decision.service.ts:540-553 | a submission can be taken for a record it does not equal exactly when it repeats a field, always with one value, and there are field names enough for the record to have another for each repeat |
| Replay.RecordedBodyMatches | server/src/services/decision.service.ts:523-554 | the body that produced a record always matches it |
| Replay.DecisionMatchesReplay | server/src/services/decision.service.ts:523-555 | the early-return loops compute the match |
| Replay.AssertNoDuplicateFields | server/src/services/decision.service.ts:480-490 | finds the first repeated field exactly when there is one |
| RuleEngine.Evaluate | server/src/services/validation/engine.ts:72-135 | the loop with its gating loop computes the turn-by-turn evaluation, with PASS exactly without findings, and a throw names its rule |
| RuleEngine.LoopMeans | server/src/services/validation/engine.ts:88-111 | when no rule requires itself or a later one, a rule is reported exactly when it applies, is unsatisfied and nothing it requires is reported; findings and count are exactly those of that meaning |
| RuleEngine.MeaningUnique | server/src/services/validation/engine.ts:88-111 | there is only one such set of reported rules |
| RuleEngine.FindingsAscend | server/src/services/validation/engine.ts:84-111 | findings come in strictly ascending order of rule |
| RuleEngine.PassIff | server/src/services/validation/engine.ts:113-121 | for any registry at all, PASS exactly when every applicable rule is satisfied |
| RuleEngine.OneFindingIff | server/src/services/validation/engine.ts:84-111 | for every registry with distinct ids there is at most one finding for each field exactly when no two reported rules resolve to one field |
| RuleClashes.ClashIff | server/src/services/validation/rules.ts:203-320 | with the thirty-one rules that is so exactly when the entry has not both transport documents with a malformed air waybill number (RIV-071 with RIV-073), nor a description that is short and general (RIV-091 with RIV-092) |
| RuleClashes.GoodsClash | server/src/services/validation/domain.ts:108-134 | "goods" is such a description |
| CaseService.ClashIsNotReceived | server/migrations/0007_audit.sql:57-65 | an entry with either clash is never received |
| CaseService.GoodsIsNotReceived | server/migrations/0007_audit.sql:57-65 | nor is one whose description is "goods" |
| Registry.AssertAcyclic | server/src/services/validation/selfCheck.ts:107-132 | succeeds exactly when no rule requires itself along any chain |
| Registry.Pass | server/src/services/validation/selfCheck.ts:116-126 | one walk over the map keeps its meaning; without progress every rule left requires a rule left |
| Registry.StuckMeansCycle | server/src/services/validation/selfCheck.ts:128-131 | rules that all wait for each other contain an actual cycle |
| Registry.AssertRegistryValid | server/src/services/validation/selfCheck.ts:34-97 | accepts exactly the registries with three-digit ascending ids, distinct codes, known fields, known gates, no cycle and static messages of 1 to 500 units |
| Registry.InOrderIff | server/src/services/validation/engine.ts:84-111 | the loop reports the one declared meaning for all predicates exactly when no rule requires itself or a later one |
| Registry.AcyclicIsNotEnough | server/src/services/validation/selfCheck.ts:34-97 | a registry can pass the whole boot check and be out of order |
| Registry.RegistryDecides | server/src/services/validation/rules.ts:57-436 | whatever the predicates of the thirty-one rules say, the loop decides them; each waits exactly for the earlier rules of its group of ten, but none in the seventies and 92 not for 91 |
| Registry.RuleIds | server/src/services/validation/rules.ts:57-436 | the ids are thirteen groups of ten in order, each numbered from zero without a gap |
| CivilDate.YearLength | server/src/services/validation/normalise.ts:92-99 | the day count of `Date` steps by 366 exactly in leap years |
| CivilDate.MonthLengths | server/src/services/validation/normalise.ts:92-99 | April, June, September and November have thirty days, February 28 or 29 by the leap rule, the others thirty-one |
| CivilDate.EarlierIff | server/src/services/validation/normalise.ts:90-99 | day numbers order civil dates as the calendar does |
| CivilDate.CivilOfDayNumber | server/src/services/validation/normalise.ts:132-135 | civil dates and day numbers correspond one to one |
| ArrivalWindow.PartsFormat | server/src/services/validation/normalise.ts:110-120 | a calendar-valid text is the spelling of its date |
| ArrivalWindow.FormatOrder | server/src/services/validation/rules.ts:431-433 | zero-padded dates compare as strings exactly as their days compare |
| ArrivalWindow.AddDaysIs | server/src/services/validation/normalise.ts:142-156 | shifting a date text is day arithmetic from the year 100 on |
| ArrivalWindow.WindowIsDays | server/src/services/validation/rules.ts:423-434 | on safe receipt days RIV-132 holds exactly when arrival minus receipt is in −60..180 days |
| ArrivalWindow.WindowIff | server/src/services/validation/rules.ts:414-435 | it does so for every calendar-valid arrival exactly when the receipt's UTC day is a safe one |
| Worker.StartedIsPrefix | server/src/ai/worker.ts:25-47 | started plus queued is what was dispatched; exactly min(dispatched, concurrency + settled) have started; never more than `concurrency` run and no slot idles while something waits |
| Worker.EveryDispatchStarts | server/src/ai/worker.ts:28-53 | every dispatched id starts after finitely many settlements, and until then a job is running |
| Worker.RecommendationWorker.Pump | server/src/ai/worker.ts:28-47 | the loop starts the head of the queue for each free slot |
| Worker.RecommendationWorker.Dispatch | server/src/ai/worker.ts:49-54 | enqueues and pumps |
| Worker.RecommendationWorker.Settle | server/src/ai/worker.ts:42-45 | frees a slot and pumps |
| NumericGate.KeptIff | server/src/http/routes/entries.ts:338-366 | a text is kept exactly when it is a decimal numeral that fits numeric(14, s) with nothing cut off |
| NumericGate.JudgeIff | server/src/http/routes/entries.ts:303-366 | of a number or a string: skipped exactly when blank, kept exactly when its text (a string trimmed) is a decimal numeral that fits, too many digits exactly when it does not fit, not numeric otherwise |
| NumericGate.KeptFieldFits | server/src/http/routes/entries.ts:303-373 | any kept text, from a number or a string, fits its column, reaches the rules unchanged, and RIV-101 and RIV-121 come down to strict positivity |
| NumericGate.RulesAfterTheGate | server/src/services/validation/normalise.ts:79-88 | `parseDecimal` accepts a kept text with the decimals as written; its double is finite, and is greater than zero exactly when the text has no minus sign and a digit other than zero |
| NumericGate.CoerceNumerics | server/src/http/routes/entries.ts:303-373 | every field is examined; all complaints in order, or exactly the kept texts |
| NumericGate.ComplaintsIff | server/src/http/routes/entries.ts:367-372 | the complaints name exactly the refused fields with their codes |
| NumericGate.Canonicalise | server/src/http/routes/entries.ts:393-417 | every field is trimmed, blank is absent, and numeric fields come from the gate only |
| FixedScale.FormatTruncates | server/src/db/canonical.ts:72-96 | a token has exactly `scale` decimals and the input's value cut toward zero |
| FixedScale.FormatTwice | server/src/db/canonical.ts:72-96 | formatting at a and then at b ≤ a is formatting at b; formatting is idempotent |
| FixedScale.TokensAgreeIff | server/src/db/canonical.ts:90-95 | without redundant leading zeros equal tokens are equal truncated values, negative zero included |
| FixedScale.EqualValuesIff | server/src/db/canonical.ts:90-95 | in general equal values get equal tokens exactly when the integer parts have one length and the same sign is shown |
| FixedScale.RedundantZeros | server/src/db/canonical.ts:90-95 | with redundant zeros equal values can get different tokens |
| Throttle.SameVerdict | server/src/services/session.service.ts:217-235 | for a clock that does not go back the pruned log gives the verdict of the full failure history since the last success |
| Throttle.AnswerIff | server/src/services/session.service.ts:217-268 | turned away exactly when the full history since the last success has five failures within fifteen minutes; otherwise answered by the credentials alone |
| Throttle.LogIsShort | server/src/services/session.service.ts:129-151 | the log never holds more than five failures |
| Throttle.WaitIsExact | server/src/services/session.service.ts:138-144 | the announced wait is exactly the first moment at which the full history no longer blocks, rounded up to seconds |
| Throttle.ThrottleStore.SignIn | server/src/services/session.service.ts:212-296 | turned away exactly with five failures within fifteen minutes, whatever the credentials; otherwise the answer is that of the credentials; the log is pruned, gets the failure of a wrong password and nothing else, and is emptied by a success; other keys are untouched |
| Throttle.ThrottleStore.RecordFailure | server/src/services/session.service.ts:146-151 | prunes and adds the failure |
| ProviderOutput.ValidateProviderResponse | server/src/ai/outputSchema.ts:59-82 | accepts exactly the well-shaped answers with distinct fields, known rules and no rule id in the rationale, and hands them on with every text trimmed and all else as it was |
| ProviderOutput.AcceptedProposals | server/src/ai/outputSchema.ts:27-43 | its proposals name entry fields, each once, with trimmed texts the table holds |

## Left out

- Express routing, middleware, sessions beyond the throttle, CSRF, logging, the web client and the command-line tools.
- PostgreSQL itself: migrations, triggers and `verify_audit_chain`. Row locks, the conditional update, the key of
  `audit_entry_values` and the checks on the columns of an entry, on a validation, on reasons and on values are steps of the
  model; the unique index on decisions is deliberately not used, since the row lock suffices. Of the foreign keys only the one
  from an audit entry to its exception can make a transaction wait; the others refer to rows that are locked by nobody else or
  in a mode that is compatible, and are left out.
- CaseService.CaseStore.RunReceipt: that another case has the entry number is an input, since the model follows one case; the
  rows of `cargo_entry_field_origins`, one for each provided field and all alike, are not stored.
- When the database looks for a cycle of waits, and which of the two it aborts: a victim is a rollback of a transaction on a
  cycle, and the theorems hold of either choice.
- The three transactions in `Lifecycle` are programs of a state machine rather than methods on a client, because their
  interleaving is the point; `CaseService` has the methods, for one transaction at a time.
- The order in which one statement's expressions are evaluated, statement timeouts and connection handling: any failure is
  a rollback.
- The provider adapter and its retry: a reply is any list of proposals, any failure reason, or a throw. Recommended action,
  rationale, model identity and `addresses_rule_ids` are not stored by the model.
- The hash function and the denylist on values are abstract, the latter any predicate on strings; `now()` and generated ids are
  inputs.
- Lone surrogates in strings (the database cannot hold them), integers of 10^21 and beyond in exponent form, `Date` values
  and fixed-scale tokens inside canonical JSON: the hashed payload has none of the latter but its timestamp, which is opaque text.
- Numeric columns are kept as the submitted text; the database's respelling of a stored `numeric` as text is not modelled.
- ArrivalWindow.WindowIff: `Date` parsing of the RFC 3339 timestamp is not modelled; a receipt is an instant in milliseconds.
- Registry.AssertRegistryValid: rule ids are the numbers of `RIV-nnn`; a primary field or message that is computed from the
  record is not checked at boot, as in the code.
- RuleEngine.Evaluate: rule predicates are arbitrary functions that may throw; of the thirty-one rules the content of RIV-070,
  RIV-071, RIV-073, RIV-090 to RIV-092, RIV-101, RIV-121 and RIV-132 is modelled, and when RIV-072 applies.
- RuleClashes.ClashIff: upper and lower case are those letters that can make a difference to a comparison with the plain
  words listed there (the dotless i and the Kelvin sign included).
- Throttle.SameVerdict: attempts on one key are sequential; two sign-ins that interleave around the password check are not modelled.
- CaseReplay.ReplayReturnsTheRecord: `ORDER BY field_name` uses the server's string order rather than a database collation;
  the statement is up to the order of values.
- Queue summary, case read composition other than the permitted decisions, and display formatting.
