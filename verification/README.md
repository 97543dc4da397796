# mql.js, verified

mql.js is a MongoDB driver that speaks SurrealQL. This project models the parts of
it whose correctness is not visible from any one function and proves what each of
them promises. The language is Dafny 4.11; `dafny verify dfyconfig.toml` covers the
whole project.

## What is modelled

**Expressions** (`expression_*.dfy`, `missing_values.dfy`, `surreal_terms.dfy`,
`operand_counts.dfy`, `compile_errors.dfy`, `variable_capture.dfy`,
`term_renaming.dfy`, `capture_exactly.dfy`, `let_refusals.dfy`,
`identity_decoding.dfy`). MongoDB's expression
language is given a direct meaning on documents, with variables bound to values; a
missing value becomes null in an array and is left out of an object.
The compiler is modelled branch by branch: a scope maps names to the terms they
stand for, closure parameters are numbered by the size of that map, `$let`
substitutes. SurrealQL terms get the server's evaluation. Whatever both sides take
as given - truthiness, the order on values, the walk into a value along a path, the
one-call functions - is a `World` both meanings share. The theorem goes from the
source to the target: where the expression has a meaning and puts no missing value
into an array or an object on the way (`Complete`), the compiled term computes it,
provided no closure captures a variable its body reads and no path names the identity
of a stored row. Both are told from the expression alone (`variable_capture.dfy`), and
the first is exactly when numbering closures by the size of the scope gives, up to the
names of their parameters, the term that takes an unused number for each
(`capture_exactly.dfy`, on the renaming of `term_renaming.dfy`). A stored row keeps its
identity as a record id, `RecordOf`; `identity_decoding.dfy` says where the decoding of
reshaped rows gives the `_id` back. `operand_counts.dfy` says that nothing MongoDB
evaluates in all its parts is refused, an operator without operands aside.
`let_refusals.dfy` says when a refusal survives `$let`, and `expression_limits.dfy` holds the inputs that show why the theorem asks for
what it asks.

**Accumulators** (`accumulators.dfy`, `row_reads.dfy`). Collecting a group's values and deriving the
accumulator from the collected list, on both kinds of server.

**Pipelines** (`pipeline.dfy`, `pipeline_identity.dfy`, `select_builder.dfy`). Stages as functions on row
lists, nested `SELECT`s evaluated in the server's fixed clause order, and the
builder as the class it is in the source, each method tied to a specification
function; folding keeps the meaning and nests as little as any legal cut. What the
translation reports of `_id` is told on rows: whether each still has the identity of a
stored one.

**Sessions** (`session*.dfy`). The session's fields and methods as a class over the
same transition functions that drive a step system of callers, acquisitions and
settle replies in every interleaving; what each call answers is told from the calls
and replies before it alone (`session_history.dfy`). The retry loop runs against the
class and a server that records the commits it applied.

**The transaction queue** (`transaction_queue.dfy`), **insertMany**
(`insert_many.dfy`), **row delivery** (`row_stream.dfy`, `cursor_rows.dfy`): the
source's mutable objects as classes and methods against what they stand for - a
queue of submitted work and what becomes of the transaction, MongoDB's ordered and unordered insert, a list of rows
with its end.

**Text and bytes** (`identifiers.dfy`, `text_laws.dfy`, `printed_literals.dfy`, `index_names.dfy`,
`date_formats.dfy`, `object_ids.dfy`, `bson_items.dfy`, `geometries.dfy`,
`bson_values.dfy`).
Printers, parsers and codecs with their round trips. Text is a sequence of UTF-16
code units; a document's fields are a map, since the server keeps no field order.

**Projection and indexes** (`projection*.dfy`, `index_*.dfy`). Exclusion described
by what stands at every location of a document, and carried out on objects that
share their parts with the caller's; index definitions, the physical
indexes that carry them, and the create and drop operations with their cache.

## What turned out not to hold

Each is kept as the code has it, with an input that shows it and the condition under
which the code does what is promised; the condition is exact except where it says so.

- A closure operator that rebinds a name in scope does not grow the scope map, so an
  inner closure can be numbered like an outer one and capture it. Nothing is captured
  exactly when no variable is read inside a closure whose parameter its term uses
  (`CaptureExactly.CaptureFreeExactly`), and then the meaning is kept
  (`ExpressionCorrectness.CompilerCorrectness`). Where one is captured the answer may
  still be right by accident, on a branch never taken or over equal values:
  `ExpressionLimits.RebindingCaptures` says exactly when on its family.
- Over stored rows the paths `_id` and `id` read a record id, where MongoDB finds the
  document's `_id` and nothing (`ExpressionCorrectness.FieldReads`,
  `ExpressionLimits.IdentityReadsRecord`): `{$eq: ["$_id", v]}` is false on the document
  whose `_id` is `v` (`ExpressionLimits.IdentityEqualsNothing`), and `{$push: "$_id"}`
  collects record ids (`Accumulators.IdentityCollectsRecords`). The decoding of reshaped
  rows gives the `_id` back under the name `_id` and under no other
  (`IdentityDecoding.CarriedIdentityDecodes`, `IdentityDecoding.OnlyUnderItsName`).
- A missing value stays missing in an array literal, a `$map` result and an object
  literal, where MongoDB puts null or leaves the field out. Each is right exactly when
  none is missing (`ExpressionLimits.ArrayLiteralExactly`, `ExpressionLimits.MapExactly`,
  `ExpressionLimits.ObjectExactly`), and a field the document does not have differs in all
  three (`ExpressionLimits.MissingFieldDiffers`).
- A `$let` variable nobody reads disappears by substitution: its failure goes
  unnoticed, and on a server that keeps one value per group the operand collects
  once instead of once per row (`ExpressionLimits.UnusedVariableHidesFailure`,
  `Accumulators.CollectIsPerRow`). A refusal is kept exactly where the body reads the
  variable, for a body that always evaluates it or never mentions it
  (`LetRefusals.LetRefusalKeptExactly`); a body that reads it in one branch keeps the
  refusal on the documents that take that branch.
- An operator that takes any number of operands is refused without any, where MongoDB
  gives `$add` 0, `$multiply` 1 and the set and object operators their empty value. It is
  the only refusal of an expression MongoDB evaluates in all its parts
  (`OperandCounts.AcceptsExactly`, `OperandCounts.EvaluatedCompiles`).
- A `$switch` without a default answers with a missing value where no branch applies
  and MongoDB refuses it (`ExpressionLimits.UnmatchedSwitchAnswers`).
- `$push` keeps a value that is missing in some document, where MongoDB leaves it out;
  `$first`, `$last`, `$firstN` and `$lastN` hand one out as it is, where MongoDB answers
  null; `$maxN` and `$minN` rank null and missing values, which MongoDB passes over. Each
  is right exactly where it hands out no such value (`Accumulators.AccumulatorCorrect`).
- A transaction started between `endSession()` and its completion, with an earlier
  acquisition in flight, leaves a server transaction open for good
  (`SessionProtocol.EndIsCleanExactly`).
- A restart while a statement of the aborted transaction still waits for its
  acquisition runs that statement in the new transaction
  (`SessionProtocol.StartIsFaithfulExactly`).
- A `withTransaction` callback that commits for itself and then fails with an error
  labelled transient is run again, and its work lands twice; it lands at most once
  exactly when no repeated callback commits for itself
  (`SessionRetry.OwnCommitLandsTwice`, `SessionRetry.RepeatedWorkLandsExactly`).
- `CursorRows.toArray` on a cursor read whole answers with every document, also
  those already handed out, where its comment says the unread ones
  (`CursorRows.CursorRows.ToArray`).
- A text index of several fields that the server refuses partway keeps the fields
  stored before; the error says the collection is unchanged, and creating the index
  again answers success (`IndexLifecycle.RefusalMayLeaveAPart`); the key
  `{_id: "text", id: "text"}` is one (`IndexLifecycle.BothIdsLeaveAPart`).
- An `insertMany` whose single statement was applied and whose reply was lost is issued
  again document by document; every one is refused as a duplicate and the report says
  none landed, where all did. The report is true in every other case
  (`InsertMany.InsertManyDocs`, `InsertMany.ReissueRefusesAll`).
- A caller's own field named `id` is lost: it shares its column with the record's
  identity (`BsonValues.IdFieldIsLost`, `BsonValues.InsertReadsBack`).
- The text an ObjectId keeps goes stale when a caller writes to the bytes the id hands
  out (`ObjectIds.WriteThroughView`).

## Model

| member | source | states |
|---|---|---|
| ExpressionCorrectness.CompilerCorrectness | src/translators/aggregate/expression.ts:938-1027 | an expression in which no variable is read inside a closure whose parameter its term uses, and no path is `_id` or begins with `id` over stored rows, compiles exactly when every operator is known and fed the operands it takes and every variable is in scope; then, wherever MongoDB gives it a value without putting a missing one into an array or an object, the compiled term computes that value on the stored row, for every document |
| ExpressionCorrectness.HygienicCorrectness | src/translators/aggregate/expression.ts:938-1027 | in particular where no closure operator rebinds a name in scope |
| ExpressionCorrectness.CompileCorrect | src/translators/aggregate/expression.ts:980-1027 | the same under any scope, environment and closure parameters that agree, by induction over the expression; an unread `$let` binding may hold a captured variable |
| ExpressionCompiler.CompilesExactlyWellFormed | src/translators/aggregate/expression.ts:980-1027 | compilation fails exactly on an unknown operator, a wrong operand count, an empty `$switch` or an unknown variable, anywhere inside |
| OperandCounts.AcceptsExactly | src/translators/aggregate/expression.ts:243-540 | an operator is accepted with exactly the operand counts MongoDB gives it some meaning for, except that one taking any number is refused with none |
| OperandCounts.EvaluatedCompiles | src/translators/aggregate/expression.ts:980-1027 | an expression MongoDB evaluates in every part, its one-call operators in the table, compiles exactly when no operator taking any number of operands is given none |
| CompileErrors.RefusalHasReason | src/translators/aggregate/expression.ts:980-1027 | the reason a refusal gives - an unknown operator or variable by its name, a wrong count, an empty `$switch` - is there in the expression |
| VariableCapture.CompiledUses | src/translators/aggregate/expression.ts:950-1027 | the closure parameters a compiled expression uses are exactly those told from the expression alone |
| VariableCapture.HygienicIsUncaptured | src/translators/aggregate/expression.ts:950-975 | where no closure rebinds a name in scope, at any depth, no closure captures a variable |
| VariableCapture.CompiledIsBelow | src/translators/aggregate/expression.ts:950-975 | every closure parameter free in a compiled expression is numbered below the size of its scope, so a fresh closure cannot capture it |
| VariableCapture.CompiledIsClosed | src/translators/aggregate/expression.ts:950-975 | a compiled expression uses no closure parameters but those the terms of its scope use |
| CaptureExactly.CaptureFreeExactly | src/translators/aggregate/expression.ts:950-975 | numbering closure parameters by the size of the scope gives the term that takes an unused number for each, up to the names of the parameters, exactly when no variable the term depends on is read inside a closure whose parameter its term uses |
| CaptureExactly.CompiledIsExact | src/translators/aggregate/expression.ts:950-1027 | the same inside any closures entered side by side, by induction over the expression |
| CaptureExactly.CaptureFreeComputes | src/translators/aggregate/expression.ts:950-975 | where nothing is captured both numberings compute the same on every row, or are refused together |
| TermRenaming.AlikeEvaluates | src/translators/aggregate/expression.ts:950-975 | terms alike up to the names of their closure parameters have the same value under parameters that match |
| TermRenaming.AlikeInside | src/translators/aggregate/expression.ts:950-961 | one more closure around two alike terms keeps them alike exactly when the one does not use the parameter it binds, that of the other being new |
| ExpressionCorrectness.EnterClosure | src/translators/aggregate/expression.ts:950-961 | binding a name to any parameter, new or not, leaves every outer variable whose term does not use that parameter with its value |
| ExpressionCorrectness.EnterLet | src/translators/aggregate/expression.ts:661-696 | substituting compiled bindings, even over names in scope, is binding the values of those in which nothing was captured |
| ExpressionCorrectness.CorrectSwitch | src/translators/aggregate/expression.ts:365-382 | the right-folded IF chain answers with the first branch whose case holds, else the default; without either there is no meaning to reproduce |
| ExpressionCorrectness.CorrectFirst | src/translators/aggregate/expression.ts:346-363 | the right-folded `??` chain answers with the first operand that is neither null nor missing, else the last |
| ExpressionCorrectness.CorrectMap | src/translators/aggregate/expression.ts:385-402 | `$map` is its body's value for each element in order, when none of them is missing |
| ExpressionCorrectness.CorrectFilter | src/translators/aggregate/expression.ts:403-419 | `$filter` keeps the elements its condition holds for, the first `limit` of them when one is given |
| ExpressionSource.KeepSelects | src/translators/aggregate/expression.ts:403-419 | what `$filter` keeps are the elements whose condition is truthy, all of them, in order |
| ExpressionSource.BoundTo | src/translators/aggregate/expression.ts:661-696 | a name bound more than once has the last of its values |
| ExpressionCorrectness.CorrectReduce | src/translators/aggregate/expression.ts:425-461 | reducing the array seeded with the initial value is the left fold from it, an empty input included |
| ExpressionCorrectness.FieldReads | src/translators/aggregate/expression.ts:107-111 | a path reads from the stored row what it reads from the document, exactly unless the rows are not yet reshaped and it is `_id`, which reads a record id, or begins with `id` and finds one there or something through it |
| SurrealTerms.OnlyFreeMatters | src/translators/aggregate/expression.ts:950-975 | a term's value depends only on the closure parameters free in it |
| ExpressionOperators.StrictCorrect | src/translators/aggregate/expression.ts:236-530 | each operator over evaluated operands computes its MongoDB meaning on their values, exactly unless it is an array literal and one of them is missing |
| ExpressionOperators.SetEqualsEvaluates | src/translators/aggregate/expression.ts:497-513 | comparing sorted distinct forms pairwise decides whether all arrays hold the same elements |
| Sequences.CanonicalForm | src/translators/aggregate/expression.ts:497-513 | two lists have equal sorted distinct forms exactly when they have the same elements |
| ExpressionOperators.SetUnionEvaluates | src/translators/aggregate/expression.ts:470-482 | the folded union holds each element of any array once |
| ExpressionOperators.SetIntersectionEvaluates | src/translators/aggregate/expression.ts:483-495 | the folded intersection holds each element common to all arrays once |
| ExpressionOperators.ChainMerge | src/translators/aggregate/expression.ts:518-535 | folding `object::extend` merges any number of objects, later fields winning |
| ExpressionLimits.RebindingCaptures | src/translators/aggregate/expression.ts:950-975 | three nested `$map`s, two with one alias: the compiled term computes the innermost element where the expression means the middle one, a missing one as null; they agree exactly when those two are equal, and the capture condition refuses the expression |
| ExpressionLimits.DefaultNamesNest | src/translators/aggregate/expression.ts:385-402 | a `$map` with its default name inside another, each reading its own element, is no capture, though it rebinds the name |
| LetRefusals.DemandRefuses | src/translators/aggregate/expression.ts:980-1027 | an expression that evaluates a variable on every document compiles to a term that is refused whenever the variable's own term is |
| LetRefusals.CompileDependsOnReads | src/translators/aggregate/expression.ts:980-1027 | the compiled term depends on the terms of the variables the expression reads and on no others |
| LetRefusals.LetKeepsRefusal | src/translators/aggregate/expression.ts:661-696 | a refused binding the body always evaluates refuses the compiled `$let` |
| LetRefusals.LetDropsUnread | src/translators/aggregate/expression.ts:661-696 | a binding the body does not read leaves no trace: replacing it by any other gives the same term |
| LetRefusals.LetRefusalKeptExactly | src/translators/aggregate/expression.ts:661-696 | for a body that always evaluates a binding or never reads it, the refusal of that binding is kept exactly when it is read |
| ExpressionLimits.UnusedVariableHidesFailure | src/translators/aggregate/expression.ts:661-696 | every `$let` with an unread binding MongoDB refuses is refused there and compiles as though the binding were any literal |
| ExpressionLimits.DivisionByZeroHidden | src/translators/aggregate/expression.ts:661-696 | such a `$let`: `1 / 0` bound and not read compiles to the body alone |
| ExpressionLimits.UnmatchedSwitchAnswers | src/translators/aggregate/expression.ts:365-382 | a `$switch` without a default answers its first branch that applies, and a missing value exactly where none does and MongoDB refuses |
| ExpressionLimits.IdentityReadsRecord | src/translators/aggregate/expression.ts:107-111 | over stored rows `$_id` and `$id` both compute a record id: never the document's `_id`, and never the nothing MongoDB finds at `id` |
| ExpressionLimits.IdentityEqualsNothing | src/translators/aggregate/expression.ts:107-111 | comparing `$_id` with the very `_id` of the document: MongoDB says true, the compiled term false |
| MissingValues.CompleteIsConverted | src/translators/aggregate/expression.ts:996-1007 | an expression that puts no missing value into an array or an object has one meaning, whether such values are converted or refused |
| ExpressionLimits.ArrayLiteralExactly | src/translators/aggregate/expression.ts:1005-1007 | an array literal computes MongoDB's array exactly when no element is missing |
| ExpressionLimits.MapExactly | src/translators/aggregate/expression.ts:385-402 | a `$map` computes MongoDB's list exactly when its body is missing for no element |
| ExpressionLimits.ObjectExactly | src/translators/aggregate/expression.ts:996-1004 | an object literal computes MongoDB's object exactly when no field's value is missing |
| ExpressionLimits.MissingFieldDiffers | src/translators/aggregate/expression.ts:996-1007 | a field the document does not have makes each of the three compute something else |
| IdentityDecoding.MapIdentitiesLeaves | src/collection/operations/aggregate.ts:202-215 | decoding changes a value exactly when a record id stands under the name `_id` somewhere in it |
| IdentityDecoding.CarriedIdentityDecodes | src/collection/operations/aggregate.ts:175-215 | a document built over stored rows, `_id` passed through under its own name next to any fields the compiler keeps, reads back after decoding as the document MongoDB builds |
| IdentityDecoding.OnlyUnderItsName | src/collection/operations/aggregate.ts:175-215 | the identity passed through under a name reads back as MongoDB's document exactly when that name is `_id` |
| Accumulators.CompilesQuiet | src/translators/aggregate/accumulators.ts:225-236 | an expression naming no field compiles to a term that reads no column |
| Accumulators.RowIndependent | src/translators/aggregate/accumulators.ts:200-213 | such a term has one value, whatever the row |
| Accumulators.CollectIsPerRow | src/translators/aggregate/accumulators.ts:206-213 | collecting gives one element per row, in row order, duplicates kept, exactly unless the server keeps one value per group and the operand names a field its compiled term never reads |
| Accumulators.UnusedVariableCollectsOnce | src/translators/aggregate/accumulators.ts:206-236 | an operand of that kind exists and collects a single value |
| RowReads.TestsAgree | src/translators/aggregate/accumulators.ts:216-236 | on an operand without a `$let` the compiler's test for reading the row is the server's, asked of the compiled term |
| RowReads.CollectWithoutLet | src/translators/aggregate/accumulators.ts:198-213 | such an operand collects one element per row, in row order, duplicates kept, on either kind of server |
| RowReads.AccumulatorCompilesExactly | src/translators/aggregate/accumulators.ts:113-197 | an accumulator is refused exactly for a refused operand, an unknown name or a count that is not positive |
| Accumulators.TopOfSorted | src/translators/aggregate/accumulators.ts:106-114 | slicing the sorted list gives the least n values, slicing its reverse the greatest n, with their multiplicities |
| Accumulators.DerivationMeans | src/translators/aggregate/accumulators.ts:76-114 | each derivation of the collected list is the accumulator's meaning on that list, exactly when it hands out no missing value, nor for `$maxN` and `$minN` a null one |
| Accumulators.AccumulatorCorrect | src/translators/aggregate/accumulators.ts:123-236 | a compiled accumulator answers with its meaning on the values its operand takes on the group's documents, exactly when it hands out no missing value, nor for `$maxN` and `$minN` a null one |
| Accumulators.IdentityCollectsRecords | src/translators/aggregate/accumulators.ts:206-213 | over stored rows `$_id` collects one record id per row, none of them a document's `_id` |
| SelectBuilders.FoldingKeepsMeaning | src/translators/aggregate/builder.ts:11-29 | for every pipeline the rendered batch answers with exactly the rows the stages produce one after another, whatever the clauses do |
| SelectBuilders.StageKeepsMeaning | src/translators/aggregate/builder.ts:137-153 | claiming a slot and writing one clause into it runs that clause after everything before |
| SelectBuilders.SplitNeverMeetsGroup | src/translators/aggregate/builder.ts:206-232 | every filled clause's slot is at most the highest, and no SELECT, nested or bound, has both SPLIT and GROUP |
| SelectBuilders.FlagsDecideNothing | src/translators/aggregate/builder.ts:137-148 | the exclusion flags never change what claiming does |
| SelectBuilders.FoldIsOptimal | src/translators/aggregate/builder.ts:1-9 | no way of cutting the stages' clauses into consecutive legal SELECTs uses fewer of them |
| SelectBuilders.FoldIsLegal | src/translators/aggregate/builder.ts:137-153 | the builder's own cut is such a cut, of just as many SELECTs as it nests |
| SelectBuilders.MaterialiseKeepsMeaning | src/translators/aggregate/builder.ts:163-166 | putting what precedes in a variable and reading from that changes no answer |
| SelectBuilders.ReshapedIsMonotone | src/translators/aggregate/builder.ts:126-128 | rows count as reshaped exactly when some stage so far was marked as replacing the documents, and stay so |
| SelectBuilders.PlainRowsCarry | src/translators/aggregate/builder.ts:206-212 | until a stage is marked as reshaping every row has the identity of a row of the source, whatever groups and replacing lists would do |
| SelectBuilders.ReshapedRowsAreStripped | src/translators/aggregate/builder.ts:206-212 | once one is marked, a group or a replacing list, clauses that do all they are asked leave no row an identity |
| SelectBuilders.SelectBuilder.Claim | src/translators/aggregate/builder.ts:137-148 | nests when the slot is not past the highest or an exclusion applies, then raises the highest to it |
| SelectBuilders.SelectBuilder.ApplyStage | src/translators/aggregate/index.ts:173-265 | one stage's claims and clauses, on the builder's fields |
| SelectBuilders.TranslatePipeline | src/translators/aggregate/index.ts:123-171 | what the translation sends answers with the pipeline's rows; where it reports the identity as not plain every row has the identity of a row of the table, under all clauses that keep it where the stages say so, and where it reports it as plain there are such clauses under which no row has one |
| Sessions.Transaction.Transition | src/session/transaction.ts:133-140 | moves exactly along the transition table, else refuses and stays |
| Sessions.ClientSession.StartTransaction | src/session/client-session.ts:214-234 | refuses an ended session and an active transaction, else a fresh starting one with no scope, acquisition or commit failure |
| Sessions.ClientSession.CommitTransaction | src/session/client-session.ts:243-286 | what a commit does before its first wait, in every state; `SessionHistory.CommitAnswers` says what it answers |
| Sessions.ClientSession.AbortTransaction | src/session/client-session.ts:295-326 | what an abort does before its first wait, in every state |
| Sessions.ClientSession.EndSession | src/session/client-session.ts:419-429 | an active transaction is aborted before the session counts as ended |
| Sessions.ClientSession.Executor | src/session/client-session.ts:448-488 | where a statement goes: the handle held, the shared acquisition, or a new one |
| Sessions.ClientSession.AcquisitionReply | src/session/client-session.ts:464-488 | a handle that arrives is adopted exactly when a transaction is starting |
| SessionProtocol.SessionIsSafe | src/session/client-session.ts:214-326 | over every interleaving no transition is illegal, a scope is held only in progress, in progress without one means exactly one settle in flight, and every server transaction is settled at most once |
| SessionProtocol.FinalStaysFinal | src/session/transaction.ts:50-69 | once committed or aborted a transaction stays so until the next start: no call, reply or late handle changes it or settles anything |
| SessionHistory.RunIsTold | src/session/client-session.ts:214-326 | over every run state, scope and commit failure are what the calls made and the replies that arrived say |
| SessionHistory.CommitAnswers | src/session/client-session.ts:243-286 | a commit succeeds at once exactly when nothing was opened and no abort came first, or its own reply arrived and was a success; it is sent exactly when a server transaction is open that nobody asked to settle; every other one is refused, with the reason the history gives |
| SessionHistory.AbortAnswers | src/session/client-session.ts:295-326 | an abort succeeds at once exactly when nothing was opened or asked for yet, is sent exactly when a server transaction is open that nobody asked to settle, and is refused after either settle, saying which came first |
| SessionHistory.StartAnswers | src/session/client-session.ts:214-234 | a start is refused exactly by an ended session or while the transaction before is not over |
| SessionHistory.RouteAnswers | src/session/client-session.ts:448-488 | a statement runs outside a transaction exactly where none is active, in the open one until someone asks to settle it, and nowhere after the end |
| SessionHistory.EndAnswers | src/session/client-session.ts:419-429 | ending is done at once exactly where no transaction is active |
| SessionHistory.OnlyEndSessionEnds | src/session/client-session.ts:419-429 | over every run the session has ended exactly when an `endSession` call was answered, and an ending is pending exactly when such a call still waits; no commit, abort or reply ends it |
| SessionProtocol.EndedLeavesNothingOpen | src/session/client-session.ts:419-509 | once the session has ended, every server transaction it ever opened is settled exactly once, when no transaction is started while an end is pending |
| SessionProtocol.EndIsCleanExactly | src/session/client-session.ts:419-488 | finishing an end leaves nothing open, now or after any further steps, exactly when no scope is held and no transaction is starting with an acquisition in flight |
| SessionProtocol.OverlappingEndLeaks | src/session/client-session.ts:419-488 | the six-step run that ends with a transaction open |
| SessionProtocol.LeakIsPermanent | src/session/client-session.ts:511-513 | nothing done to an ended session can settle a transaction it still holds |
| SessionProtocol.StatementsStayInTheirTransaction | src/session/client-session.ts:464-509 | a statement runs only in the server transaction of the transaction it was issued in, when none is started while a statement waits for an earlier one |
| SessionProtocol.StartIsFaithfulExactly | src/session/client-session.ts:464-488 | starting a transaction keeps every later run that way exactly when no statement is waiting |
| SessionProtocol.RestartRunsAbortedStatement | src/session/client-session.ts:464-488 | the six-step run in which an aborted transaction's statement runs in the next |
| SessionRetry.WithTransaction | src/session/client-session.ts:353-378 | what the server applied, in transactions opened meanwhile, is counted by the attempts that ran; every attempt but the last ended in a transient error in time, an error is thrown only when it is not transient or came too late, a normal return means the last attempt committed, and every loop-back finds the session startable |
| SessionRetry.ErrorDecides | src/session/client-session.ts:360-378 | an attempt is repeated exactly when it ended in a transient error in time, a commit rejected so included; one rejected for good or of unknown outcome is not |
| SessionRetry.RepeatedWorkLandsExactly | src/session/client-session.ts:353-378 | work of a repeated attempt took effect exactly where its callback committed for itself |
| SessionRetry.LandsAtMostOnce | src/session/client-session.ts:328-378 | otherwise work lands at most once, and in the last attempt |
| SessionRetry.ReturnMeansAppliedOnce | src/session/client-session.ts:328-378 | a normal return means the work was applied once, if any statement opened a transaction at all |
| SessionRetry.OwnCommitLandsTwice | src/session/client-session.ts:390-411 | a callback that commits for itself and then fails transiently is run again and lands twice |
| SessionRetry.AttemptTransaction | src/session/client-session.ts:380-413 | one attempt: which commits reach the server and take effect there, with the acquisition failing at any statement and the callback settling for itself or not; it commits exactly when the callback and the commit succeed, and leaves no transaction active |
| TransactionQueue.HandleSeesCallOrder | src/surreal/transaction-executor.ts:98-135 | the handle is told operations in the order they were called, nothing after the first settle, and an operation is refused exactly when one called before it settles |
| TransactionQueue.FirstSettleDecides | src/surreal/transaction-executor.ts:164-200 | over every interleaving the first settle begun decides: a commit applies the transaction exactly when the handle answers it without failing, and its caller is told which; a cancel discards it |
| TransactionQueue.AppliedExactlyWhenTold | src/surreal/transaction-executor.ts:164-200 | the transaction is applied exactly when some caller was told its commit succeeded |
| TransactionQueue.DrainedIsSettled | src/surreal/transaction-executor.ts:190-216 | once the queue is empty a transaction somebody asked to settle, `close` included, is not open |
| TransactionQueue.QueriesArriveWhole | src/surreal/database-scope.ts:51-57 | a query reaches the handle as its caller's statements in order, after the `USE DB` of its database |
| TransactionQueue.RunIsOrderly | src/surreal/transaction-executor.ts:202-223 | the queue's invariant over every interleaving of calls, turns and replies |
| TransactionQueue.NeverStalls | src/surreal/transaction-executor.ts:202-216 | until everything is done some turn is possible, whatever was answered before |
| TransactionQueue.OwnFrames | src/surreal/database-scope.ts:51-57 | each caller is answered from the frames of its own statements, the database prefix notwithstanding |
| TransactionQueue.TransactionExecutor.StartNext | src/surreal/transaction-executor.ts:98-126 | dials the handle exactly when the next operation's turn has come and the handle is not spent, with the call `TransactionQueue.FirstSettleDecides` and `TransactionQueue.QueriesArriveWhole` are about |
| TransactionQueue.TransactionExecutor.Finish | src/surreal/transaction-executor.ts:164-200 | a reply answers the operation in flight, whatever it says |
| InsertMany.OrderedCountIsLongest | src/collection/operations/insert.ts:155-174 | the count an ordered insert stops at is that of the longest insertable prefix |
| InsertMany.GreedyFlagAt | src/collection/operations/insert.ts:183-206 | a document lands in an unordered insert exactly when the table at its turn does not refuse it |
| InsertMany.InsertOneByOne | src/collection/operations/insert.ts:155-174 | the table gains exactly that prefix, and the outcomes are its successes and one failure |
| InsertMany.InsertIndependently | src/collection/operations/insert.ts:183-206 | the table gains exactly the greedy set, every document attempted |
| InsertMany.ReportTells | src/collection/operations/insert.ts:216-241 | inserted ids and write errors partition the attempted documents, each under its own index |
| InsertMany.InsertManyDocs | src/collection/operations/insert.ts:91-132 | the whole operation: all in one statement, or what MongoDB would have kept; all or nothing inside a transaction; every id reported is that of the document at its index, which stands in the table under it, and the report names all that landed exactly unless the statement was applied and its reply lost |
| InsertMany.KeptOnlyAdds | src/collection/operations/insert.ts:91-132 | what was in the table stays, and what is new is each document that landed, under its own id, and nothing else |
| InsertMany.ReissueRefusesAll | src/collection/operations/insert.ts:91-132 | issued again over a batch that did land, every document is refused and the table stays |
| InsertMany.FastPathRefines | src/collection/operations/insert.ts:91-132 | where the one statement succeeds the re-issue would have inserted the same |
| RowStreams.NextRow | src/surreal/row-stream.ts:40-53 | the next row of one statement's frames, a failure of any statement reported |
| RowStreams.Next | src/surreal/row-stream.ts:91-310 | any stack of iterators delivers exactly the list it stands for, one element a call |
| RowStreams.Return | src/surreal/row-stream.ts:91-310 | after an early return nothing more is delivered, at any level |
| RowStreams.Drain | src/surreal/row-stream.ts:91-310 | reading to the end delivers every row once and then only the end |
| RowStreams.StreamedEqualsBuffered | src/surreal/row-stream.ts:91-201 | without failures a streamed read and a buffered one stand for the same documents |
| RowStreams.FirstErrorEnds | src/surreal/row-stream.ts:40-53 | a reader gets the rows of its statement before the first failure of any statement, and then that failure |
| RowStreams.StreamedFailure | src/surreal/row-stream.ts:91-201 | through the whole stack: those rows decoded, then the failure unless it says the table is missing; one turned away before any row is read through its fallback |
| RowStreams.BufferedFailure | src/surreal/row-stream.ts:91-201 | a buffered read that fails gives no row, and no failure where the table is missing |
| RowStreams.ReadFromStart | src/surreal/row-stream.ts:91-156 | however often a fresh stream is read, all answers come from one source: the fallback exactly where the query was turned away before any row, and otherwise the stream alone, the fallback never opened |
| CursorRows.CursorRows.NextDocument | src/cursor/cursor-rows.ts:60-72 | hands out the first unread document, or the end |
| CursorRows.CursorRows.HasNext | src/cursor/cursor-rows.ts:75-82 | tells whether one is left and loses none |
| CursorRows.CursorRows.ToArray | src/cursor/cursor-rows.ts:90-101 | a streamed cursor answers with exactly the unread documents; one read whole does so exactly when none, or nothing, was handed out |
| CursorRows.CursorRows.Begin | src/cursor/cursor-rows.ts:50-57 | opens a stream if one can be had, else reads whole; beginning twice changes nothing |
| CursorRows.CursorRows.Reset | src/cursor/cursor-rows.ts:114-126 | forgets what was read, to be read again from the start |
| CursorRows.CursorRows.ReadBy | src/cursor/cursor-rows.ts:60-82 | any sequence of `next` and `hasNext` hands out the documents in order, none lost or repeated |
| CursorRows.SameDocuments | src/cursor/cursor-rows.ts:60-82 | a streamed cursor and a buffered one on the same list cannot be told apart |
| Identifiers.IdentifierRoundTrip | src/surreal/sql/escape.ts:58-60 | unescaping the inside of an escaped name gives the name, for every text, and its first unescaped backtick is the last character |
| Identifiers.UnescapeSurrealString | src/surreal/sql/escape.ts:157-186 | the loop, with its shortcut, reads unit by unit what the quoted text stands for |
| Identifiers.UnescapeEscaped | src/surreal/sql/escape.ts:157-186 | unescaping inverts escaping for every quote, wherever the text stands |
| Identifiers.SpellingsRead | src/surreal/sql/escape.ts:106-186 | however the server spells a text, stretch by stretch - as itself, by a letter, by its code point, escaped - reading it gives the text |
| Identifiers.PrintedTextReads | src/surreal/sql/escape.ts:106-186 | a text printed stretch by stretch in any of the server's five ways is read as that text |
| Identifiers.BracedReadsAs | src/surreal/sql/escape.ts:124-141 | wherever it stands, a braced escape of one to six hexadecimal digits is read as the code point they number |
| Identifiers.FourDigitsReadAs | src/surreal/sql/escape.ts:124-141 | and one of four bare digits likewise |
| Identifiers.ControlReads | src/surreal/sql/escape.ts:106-113 | the letter a control character is printed as is read as that character |
| TextLaws.EveryCodePointReads | src/surreal/sql/escape.ts:124-141 | every code point has a braced spelling, and it is read as that code point |
| TextLaws.HexNumberExactly | src/surreal/sql/escape.ts:135-136 | digits number a code point only when there are one to six, all hexadecimal in either case |
| TextLaws.OtherBracesRead | src/surreal/sql/escape.ts:124-186 | braces around anything else leave a plain `u`, and reading goes on inside them |
| TextLaws.LettersTell | src/surreal/sql/escape.ts:106-113 | a backslashed letter is read as another character exactly when it is that character's letter |
| Identifiers.CodePointRoundTrip | src/surreal/sql/escape.ts:124-141 | a code point past the first plane becomes a surrogate pair that encodes it |
| Identifiers.ClosingIsFinal | src/utils/id.ts:219-228 | the search for a closing quote steps over every escaped one |
| Identifiers.FindClosingQuote | src/utils/id.ts:219-228 | finds the first unescaped quote at or after a place |
| Identifiers.RecordIdRoundTrip | src/utils/id.ts:241-277 | parsing a printed record id recovers table and id, each in either quote or bare: a digit string stays a string, a number a number, colons lose nothing |
| TextLaws.ObjectIdTexts | src/utils/id.ts:205-277 | the texts taken for a printed ObjectId's are the lowercase hexadecimal texts of twelve bytes |
| Identifiers.EscapeFieldPath | src/surreal/sql/escape.ts:74-88 | the loop writes each segment escaped on its own, an index in brackets, a leading number as a name |
| Identifiers.FieldPathKeepsSegments | src/surreal/sql/escape.ts:74-88 | reading an escaped path gives back its segments one by one |
| PrintedLiterals.ScanState.IsSeparator | src/surreal/error-mapper.ts:220-243 | one step of the scan over quotes, backslashes and brackets |
| PrintedLiterals.SplitTopLevel | src/surreal/error-mapper.ts:246-262 | splits where the scan says, a blank last element dropped |
| PrintedLiterals.LiteralIsWhole | src/surreal/error-mapper.ts:220-243 | a scan over any well-formed literal, however nested, splits nothing and comes out where it went in |
| PrintedLiterals.SplitInvertsPrint | src/surreal/error-mapper.ts:246-262 | splitting the comma-joined texts gives them back exactly when the last one is not blank |
| PrintedLiterals.EveryTextPrints | src/surreal/error-mapper.ts:178-191 | every string has a printed form in either quote |
| PrintedLiterals.ValueListRoundTrip | src/surreal/error-mapper.ts:178-207 | reading the printed list of a compound key's values recovers all of them |
| IndexNames.KeyFromIndexName | src/surreal/error-mapper.ts:275-299 | the token loop, closing a field at each direction token |
| IndexNames.NameGivesKeyBack | src/collection/index-definition.ts:139-141 | a generated name gives its key back exactly when every direction is a sort order and no field name has an underscore segment reading `1` or `-1` |
| IndexNames.DirectionInFieldName | src/surreal/error-mapper.ts:275-299 | the name of `{a_1: 1}` reads as no key |
| DateFormats.TranslateDateFormat | src/translators/aggregate/expression.ts:1088-1121 | the loop over a format, with its three refusals |
| DateFormats.TranslationRendersTheSame | src/translators/aggregate/expression.ts:1056-1121 | a format is translated exactly when it is complete and the server renders each of its parts alike, and then both render the same parts in order |
| ObjectIds.BytesToHex | src/object-id.ts:80-86 | two digits for each byte |
| ObjectIds.HexToBytes | src/object-id.ts:88-94 | one byte for each two digits, in a fresh array |
| ObjectIds.HexRoundTrip | src/object-id.ts:80-94 | bytes to hexadecimal to bytes is the identity |
| ObjectIds.HexReadsBack | src/object-id.ts:244-257 | hexadecimal in either case reads to bytes whose text is its lowercase form |
| ObjectIds.BytesToBase64 | src/object-id.ts:102-113 | four digits for each three bytes |
| ObjectIds.Base64ToBytes | src/object-id.ts:115-129 | the bytes a text stands for, refused at a character that is no digit |
| ObjectIds.Base64RoundTrip | src/object-id.ts:102-129 | bytes to base64 to bytes is the identity |
| ObjectIds.Base64ReadsBack | src/object-id.ts:102-129 | base64 that reads at all is the text its bytes are written as |
| ObjectIds.WriteTimestamp | src/object-id.ts:146-163 | reading a written timestamp gives the floored seconds modulo 2^32, past 2038 and before 1970 included, and touches no other byte |
| ObjectIds.HexKeepsOrder | src/object-id.ts:80-86 | hexadecimal text sorts as the bytes it spells |
| ObjectIds.ChronologicalOrder | src/object-id.ts:146-163 | ids sort, as hexadecimal text, by their stored timestamps |
| ObjectIds.IdsDiffer | src/object-id.ts:294-313 | two ids of one process are equal exactly when timestamp and counter are |
| ObjectIds.Generator.Generate | src/object-id.ts:294-313 | twelve fresh bytes of time, process and the next counter |
| ObjectIds.Generator.GenerateAll | src/object-id.ts:75-78 | of ids generated in a row two are equal exactly when their timestamps are and a whole number of counter cycles lies between them, so any 2^24 are distinct |
| ObjectIds.ObjectId.FromHexString | src/object-id.ts:225-257 | the bytes of the text, and a kept text that is theirs |
| ObjectIds.ObjectId.SetId | src/object-id.ts:264-267 | a copy of the bytes, and no kept text of the old ones |
| ObjectIds.ObjectId.ToHexString | src/object-id.ts:282-287 | the text kept, else that of the bytes; the text of the bytes held now exactly while a kept one is theirs |
| ObjectIds.WriteThroughView | src/object-id.ts:259-287 | a byte written through the view an id hands out makes a kept text wrong, unless that byte was already there |
| ObjectIds.CreateFromHexString | src/object-id.ts:371-376 | accepts exactly 24 hexadecimal digits, and prints them lowercase |
| ObjectIds.CreateFromBase64 | src/object-id.ts:379-386 | accepts exactly 16 base64 digits, and prints them back |
| BsonValues.DateKeepsInstant | src/surreal/bson-codec.ts:204-223 | every date in range is sent as the same instant with nanoseconds in [0, 10^9) and comes back, and no other date is sent |
| BsonValues.LibrarySplitFails | src/surreal/bson-codec.ts:184-203 | the client library's own split is right exactly for dates from the epoch on or of whole seconds |
| BsonValues.DatesAreYears | src/surreal/bson-codec.ts:175-182 | the dates sent are those of the years -262143 to 262142 of the Gregorian calendar |
| BsonValues.DaysCount | src/surreal/bson-codec.ts:181-182 | the days that count starts from: 365 a year, 366 in leap years |
| Geometries.RecognisedExactly | src/surreal/geometry-codec.ts:138-150 | an object is taken for a geometry exactly when it has one of the seven names and a list where that kind has one, and nothing else |
| Geometries.ValidWhenFormed | src/surreal/geometry-codec.ts:206-327 | what stands for a geometry is recognised, and accepted exactly when its lines have two positions, its rings four with the last repeating the first, and no part is empty |
| Geometries.SentExactly | src/surreal/geometry-codec.ts:180-327 | the documents sent as geometries are those that stand for a well-formed geometry, collections in collections included, and no others |
| BsonItems.GeometryIsPlain | src/surreal/geometry-codec.ts:138-150 | a recognised geometry with valid coordinates has no stored id inside and is not one |
| BsonValues.EncodeDecides | src/surreal/bson-codec.ts:146-173 | a value is refused exactly when something in it is a date out of range, a malformed geometry or a BSON type without a form |
| BsonValues.ValueRoundTrip | src/surreal/bson-codec.ts:257-276 | a value comes back as written, field order aside, exactly when nothing in it has the shape of a stored id or is a geometry object of the client library |
| BsonValues.FieldsRoundTrip | src/surreal/bson-codec.ts:289-300 | the same of a document's fields, the document itself free to have that shape |
| BsonValues.ReviveLeaves | src/surreal/bson-codec.ts:257-276 | rebuilding changes a value exactly when a stored id or a geometry object is in it |
| BsonValues.ReviveBsonValues | src/surreal/bson-codec.ts:257-276 | rebuilds every stored id and copies only what changed |
| BsonValues.ReviveBsonDocument | src/surreal/bson-codec.ts:289-300 | the same over the fields of a document |
| BsonValues.IdRoundTrip | src/utils/id.ts:57-81 | an ObjectId, string or whole number addresses a record that reads back as it |
| BsonValues.RecordIdsDiffer | src/utils/id.ts:57-81 | two ids address the same record exactly when table and id are the same |
| BsonValues.InsertRefuses | src/utils/id.ts:90-127 | an insert is refused exactly for a document that is a geometry or an `_id` that is a number and not whole, not a number or infinite |
| BsonValues.InsertReadsBack | src/utils/id.ts:90-156 | an inserted document reads back under the `_id` reported for it, with every other field, exactly when it has no field of its own named `id`, no field holding something shaped like a stored id, and an `_id` that is not already a record id |
| BsonValues.IdFieldIsLost | src/collection/operations/insert.ts:107-107 | a caller's own field named `id` never comes back |
| BsonValues.TextIdFieldIsLost | src/utils/id.ts:141-156 | `{_id: a, id: b}` reads back as `{_id: a}` |
| ProjectedObjects.ExcludePath | src/utils/id.ts:305-339 | removes the leaf a path names, in every plain object of an array on the way, writing to the container alone: every object below is copied before it is written |
| ProjectedObjects.ApplyProjection | src/utils/id.ts:357-377 | a new document with the exclusions in turn, then `_id` when it is suppressed, which is then gone; the given one is as it was |
| ProjectedObjects.JsObject.Spread | src/utils/id.ts:336-338 | a shallow copy stands for the same document |
| Projections.ExcludeRemovesExactly | src/utils/id.ts:305-339 | afterwards nothing stands at or below the path, and every other location of the document holds what it held |
| Projections.ExcludeAllRemovesExactly | src/utils/id.ts:357-377 | the same of any number of exclusions together |
| Projections.SuppressedIsGone | src/utils/id.ts:357-377 | a field at the top is left exactly when its name is not excluded and it is not a suppressed `_id` |
| Projections.LooksDecide | src/utils/id.ts:305-339 | a document is determined by what stands at its locations |
| Projections.OrderIsIrrelevant | src/utils/id.ts:357-377 | neither the order of the exclusions nor naming one twice matters |
| Projections.LongerPathIsRedundant | src/utils/id.ts:357-377 | excluding a path below an excluded one adds nothing |
| IndexDefinitions.ResolveKey | src/collection/index-definition.ts:98-131 | a key names each field once |
| IndexDefinitions.ResolveValidates | src/collection/index-definition.ts:327-361 | a request that passes has a nonempty key of one kind, its columns, and the reserved name only for the id key |
| IndexDefinitions.ObjectKeepsOrder | src/collection/index-definition.ts:144-146 | a key keeps its order as a plain object exactly when it lists integer-like fields first, ascending |
| IndexLaws.ResolvesExactly | src/collection/index-definition.ts:278-361 | a request is served exactly when its key is not empty, an `_id` alone is ascending, every field can be indexed, none has `$**` anywhere in its name, the fields are all sort orders or all text, and the reserved name goes with the `_id` key |
| IndexLaws.IntegerLikeExactly | src/collection/index-definition.ts:144-146 | the fields a plain object lists first are the decimal spellings of the numbers below 2^32 - 1 |
| IndexLaws.PhysicalNamesTell | src/collection/index-definition.ts:543-565 | one physical index goes by the MongoDB name; the parts of a text index of several columns go by names that differ from it and from each other exactly as their columns do |
| IndexLaws.ForeignIsInferred | src/collection/index-definition.ts:653-690 | an index defined elsewhere is listed under its own name with a key that gives those columns back, text exactly for a full-text one, and with its own comment |
| IndexDefinitions.DescribeIndexes | src/collection/index-definition.ts:692-725 | one description for each MongoDB name, later parts merged into the first, and the name behind each physical index |
| IndexLifecycle.DescriptionsAre | src/collection/index-definition.ts:692-725 | the descriptions are `_id_` and what each physical index describes, under distinct names |
| IndexLifecycle.DefineStores | src/collection/operations/indexes.ts:133-204 | a definition nothing clashes with is stored as a run of its physical indexes, whole or up to the first refused one, and is then reported once, whole |
| IndexLifecycle.ListingOrderIsIrrelevant | src/collection/index-definition.ts:692-725 | which indexes are reported, and how many, does not depend on the order the server lists them in |
| IndexLifecycle.CreatedIsReported | src/collection/operations/indexes.ts:133-204 | a created index is listed once, next to those there were, with its name, options and key, the key in the caller's order exactly when that is object order |
| IndexLifecycle.SuccessMeansListed | src/collection/operations/indexes.ts:133-204 | unless the server itself refuses, creating succeeds exactly when an index of that name, key and options is listed afterwards |
| IndexLifecycle.CreatingAgainWritesNothing | src/collection/operations/indexes.ts:97-150 | creating it again, with whatever comment, succeeds and changes nothing |
| IndexLifecycle.ConflictsWriteNothing | src/collection/operations/indexes.ts:133-182 | a name, key or physical-name conflict leaves the table as it was |
| IndexLifecycle.OnlyASharedColumnFails | src/collection/index-definition.ts:543-565 | of definitions the server can read back one fails exactly when a text key has both `_id` and `id` |
| IndexLifecycle.RefusalMayLeaveAPart | src/collection/operations/indexes.ts:206-273 | after a refusal the collection is unchanged exactly when the first physical index was refused; otherwise the index is listed whole and creating it again succeeds without storing the rest |
| IndexLifecycle.SharedColumnLeavesAPart | src/collection/operations/indexes.ts:206-273 | every text key with both `_id` and `id` that the server could read back is refused with a part stored |
| IndexLifecycle.BothIdsLeaveAPart | src/collection/index-definition.ts:543-565 | `{_id: "text", id: "text"}` on a collection without indexes is such a key |
| IndexLifecycle.DropDescribes | src/collection/operations/indexes.ts:340-370 | dropping takes exactly that name out of what is listed |
| IndexLifecycle.DropUndoesDefine | src/collection/operations/indexes.ts:340-370 | creating and then dropping an index leaves the server's indexes as they were |
| IndexLifecycle.RunsStayCoherent | src/collection/operations/indexes.ts:133-396 | over any run of creates and drops physical names stay distinct, those sharing a MongoDB name describe one index, and no two names have the same key and options |
| IndexOperations.IndexOperations.DefineIndex | src/collection/operations/indexes.ts:133-204 | that outcome, and a text-field cache that stays current exactly unless an index was stored in part |
| IndexOperations.IndexOperations.CreateIndexes | src/collection/operations/indexes.ts:302-331 | every request is checked before the first is carried out; the first failure stops the rest |
| IndexOperations.IndexOperations.DropIndex | src/collection/operations/indexes.ts:340-370 | removes exactly the physical indexes of that name, answers how many indexes there were, and keeps the cache current |
| IndexOperations.IndexOperations.DropIndexes | src/collection/operations/indexes.ts:380-396 | removes every index and leaves no text field in the cache |
| IndexOperations.SetEntryKeeps | src/collection/index-registry.ts:43-55 | a cached name has its last entry alone and every other name keeps its own |
| IndexOperations.IndexRegistry.Sync | src/collection/index-registry.ts:43-49 | the cache becomes what the server reports |

## Left out

- ExpressionCorrectness.CompilerCorrectness: speaks of expressions MongoDB gives a value; `ExpressionLimits.UnusedVariableHidesFailure` and `ExpressionLimits.UnmatchedSwitchAnswers` show it cannot run backwards. That no missing value is put into an array or an object is sufficient, since such a value may be discarded later on; it is exact for each array literal, `$map` and object literal by itself. Null and non-array operands of array, set and arithmetic operators count as having no value, and numbers are compared as stored, whole apart from fractional.
- ExpressionOperators.StrictCorrect: `$and`, `$or`, the comparisons, `$subtract` and `$mod`, infix in the code, count among the one-call operators both sides are assumed to compute alike.
- Accumulators.AccumulatorCorrect: `$sum`, `$avg` and the other folds mean the server's own function of that name.
- SelectBuilders.FoldIsOptimal: speaks of stages without a materialise point, which starts a SELECT of its own by definition.
- SessionRetry.WithTransaction: backoff and the deadline; statements a callback issues at the same time, or after settling for itself, which then run outside the transaction; the number of attempts is bounded by a list of what each does.
- PrintedLiterals.ValueListRoundTrip: whole numbers only; what a number reader makes of other bare text is not part of this model.
- Identifiers.RecordIdRoundTrip: numbers are unbounded, where the code reads them as doubles.
- DateFormats.TranslationRendersTheSame: which specifiers both systems render alike is taken from the code's own table. MongoDB documents `%Z` as an offset in minutes, so that entry is the table's claim and no more.
- BsonValues.ValueRoundTrip: ids written by other libraries in uppercase come back lowercase; the client library's geometry objects are assumed to hold the GeoJSON they were built from, and the server to return every leaf value it was sent.
- BsonValues.InsertReadsBack: what the server does when the content of a single `CREATE` names an `id` of its own is taken to be what the batch statement sends, the record's identity in that column.
- IndexLifecycle.CreatedIsReported: that a new index comes last rests on the server listing indexes in the order they were defined; `IndexLifecycle.ListingOrderIsIrrelevant` is what holds without that.
- Projections.ExcludeRemovesExactly: the order of a document's remaining fields; fields are a map.
- IndexLifecycle.DefineStores: runs outside a transaction; inside one the server discards what it refused along with the caller's transaction.
- One-call operators (`$concat`, `$year`, `$toInt` and their like), regular expressions, dates and conversions: the two servers' functions are assumed to agree as the operator table says.
- `$objectToArray`, `$arrayToObject`, `$dateToString` operands and other operators that check an operand's raw shape before compiling.
- Reading BSON documents into expressions and stages, and the text of the SurrealQL that is sent; clause texts are opaque.
- `$lookup`, `$graphLookup`, `$facet`, `$bucket`, `$count`, `$replaceRoot` and the OMIT form of `$project`.
- Filter and update translation.
- Cancellation signals, timeouts, the stream size cap, reconnecting and connection strings.
- The rest of error mapping, option gates and their messages, including the fixed list of field names that cannot be indexed.
- The many shapes of an index specification; a key is given as its entries.
- Inclusion projection, event emitters, result builders and the facades over these modules.
