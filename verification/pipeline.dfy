/**
 * Aggregation pipelines and the SELECT statements they become.
 *
 * A pipeline is a sequence of stages, each seeing what the one before produced. A
 * SELECT is a set of clauses the server evaluates in one fixed order: WHERE,
 * SPLIT, GROUP with the field list, ORDER, START, LIMIT. Clause texts are opaque
 * here; `Clauses` says what each one does to rows.
 */
module Pipelines {
  import opened Values

  type Row = map<string, Value>

  datatype Clauses = Clauses(
    matches: (string, Row) -> bool,
    split: (string, Row) -> seq<Row>,
    grouped: (string, string, seq<Row>) -> seq<Row>,
    project: (string, Row) -> Row,
    ordered: (string, seq<Row>) -> seq<Row>)

  /** A field list of `*` leaves a row as it is. */
  ghost predicate StarKeepsRows(c: Clauses) {
    forall r :: c.project("*", r) == r
  }

  // Row lists.

  function Filter(c: Clauses, clause: string, rows: seq<Row>): seq<Row> {
    if rows == [] then []
    else (if c.matches(clause, rows[0]) then [rows[0]] else []) + Filter(c, clause, rows[1..])
  }

  function Split(c: Clauses, field: string, rows: seq<Row>): seq<Row> {
    if rows == [] then [] else c.split(field, rows[0]) + Split(c, field, rows[1..])
  }

  function Project(c: Clauses, fields: string, rows: seq<Row>): seq<Row> {
    seq(|rows|, i requires 0 <= i < |rows| => c.project(fields, rows[i]))
  }

  function Skip(n: nat, rows: seq<Row>): seq<Row> {
    if n < |rows| then rows[n..] else []
  }

  function Take(n: nat, rows: seq<Row>): seq<Row> {
    if n < |rows| then rows[..n] else rows
  }

  /** Filtering goes row by row and keeps a row exactly when it matches. */
  lemma {:induction false} FilterAppend(c: Clauses, clause: string, rows: seq<Row>, row: Row)
    ensures Filter(c, clause, rows + [row]) == Filter(c, clause, rows) + if c.matches(clause, row) then [row] else []
  {
    if rows == [] {
      assert rows + [row] == [row] && [row][1..] == [];
    } else {
      assert (rows + [row])[1..] == rows[1..] + [row];
      FilterAppend(c, clause, rows[1..], row);
    }
  }

  /** Splitting goes row by row, what each becomes in its place. */
  lemma {:induction false} SplitAppend(c: Clauses, field: string, rows: seq<Row>, row: Row)
    ensures Split(c, field, rows + [row]) == Split(c, field, rows) + c.split(field, row)
  {
    if rows == [] {
      assert rows + [row] == [row] && [row][1..] == [];
      assert Split(c, field, [row]) == c.split(field, row) + [];
    } else {
      assert (rows + [row])[1..] == rows[1..] + [row];
      SplitAppend(c, field, rows[1..], row);
    }
  }

  lemma ProjectAppend(c: Clauses, fields: string, rows: seq<Row>, row: Row)
    ensures Project(c, fields, rows + [row]) == Project(c, fields, rows) + [c.project(fields, row)]
  {
  }

  /** The first `n` rows, or all where there are fewer, and the rest. */
  lemma TakeAndSkip(n: nat, rows: seq<Row>)
    ensures Take(n, rows) + Skip(n, rows) == rows
    ensures |Take(n, rows)| == if n < |rows| then n else |rows|
  {
  }

  // Stages.

  datatype Stage =
    | Match(clause: string)
    | Unwind(field: string, kept: Option<string>)
    | Group(key: string, fields: string, outer: Option<string>)
    | ProjectFields(fields: string, reshapes: bool)
    | AddFields(added: string)
    | Sort(clause: string)
    | Sample(size: nat)
    | SkipRows(rows: nat)
    | LimitRows(rows: nat)
    | Materialise(name: string)

  const RANDOM_ORDER := "ORDER BY rand()"

  /** What one stage does to the rows before it. */
  function RunStage(c: Clauses, stage: Stage, rows: seq<Row>): seq<Row> {
    match stage
    case Match(clause) => if clause == "" then rows else Filter(c, clause, rows)
    case Unwind(field, kept) =>
      Split(c, field, if kept.Some? then Filter(c, kept.value, rows) else rows)
    case Group(key, fields, outer) =>
      var groups := c.grouped(key, fields, rows);
      if outer.Some? then Project(c, outer.value, groups) else groups
    case ProjectFields(fields, _) => Project(c, fields, rows)
    case AddFields(added) => Project(c, "*, " + added, rows)
    case Sort(clause) => if clause == "" then rows else c.ordered(clause, rows)
    case Sample(size) => Take(size, c.ordered(RANDOM_ORDER, rows))
    case SkipRows(n) => Skip(n, rows)
    case LimitRows(n) => Take(n, rows)
    case Materialise(_) => rows
  }

  /** The stages one after another. */
  function RunStages(c: Clauses, stages: seq<Stage>, rows: seq<Row>): seq<Row> {
    if stages == [] then rows
    else RunStage(c, stages[|stages| - 1], RunStages(c, stages[..|stages| - 1], rows))
  }

  // Statements.

  datatype Source = Table(name: string) | Variable(name: string) | Subquery(inner: Select)

  datatype Select = Select(
    from: Source,
    fields: string,
    where: Option<string>,
    split: Option<string>,
    groupBy: Option<string>,
    orderBy: Option<string>,
    start: Option<nat>,
    limit: Option<nat>)

  datatype LetStatement = LetStatement(name: string, value: Select)

  /** Bound variables first, then the statement whose rows are the answer. */
  datatype Batch = Batch(lets: seq<LetStatement>, final: Select)

  /** Tables of the database and variables bound so far. */
  datatype Store = Store(tables: map<string, seq<Row>>, variables: map<string, seq<Row>>)

  function EvalSource(c: Clauses, from: Source, store: Store): seq<Row>
    decreases from, 0
  {
    match from
    case Table(name) => if name in store.tables then store.tables[name] else []
    case Variable(name) => if name in store.variables then store.variables[name] else []
    case Subquery(inner) => EvalSelect(c, inner, store)
  }

  /** SurrealDB's evaluation order. */
  function EvalSelect(c: Clauses, s: Select, store: Store): seq<Row>
    decreases s, 1
  {
    var rows := EvalSource(c, s.from, store);
    EvalClauses(c, s, rows)
  }

  function EvalClauses(c: Clauses, s: Select, rows: seq<Row>): seq<Row> {
    var kept := if s.where.Some? then Filter(c, s.where.value, rows) else rows;
    var flat := if s.split.Some? then Split(c, s.split.value, kept) else kept;
    var shaped := if s.groupBy.Some? then c.grouped(s.groupBy.value, s.fields, flat) else Project(c, s.fields, flat);
    var sorted := if s.orderBy.Some? then c.ordered(s.orderBy.value, shaped) else shaped;
    var rest := if s.start.Some? then Skip(s.start.value, sorted) else sorted;
    if s.limit.Some? then Take(s.limit.value, rest) else rest
  }

  function BindLets(c: Clauses, lets: seq<LetStatement>, store: Store): Store {
    if lets == [] then store else
    var before := BindLets(c, lets[..|lets| - 1], store);
    var last := lets[|lets| - 1];
    before.(variables := before.variables[last.name := EvalSelect(c, last.value, before)])
  }

  function EvalBatch(c: Clauses, batch: Batch, store: Store): seq<Row> {
    EvalSelect(c, batch.final, BindLets(c, batch.lets, store))
  }

  /** How many SELECTs a statement nests. */
  function Levels(s: Select): nat
    decreases s, 1
  {
    1 + SourceLevels(s.from)
  }

  function SourceLevels(from: Source): nat
    decreases from, 0
  {
    match from
    case Table(_) => 0
    case Variable(_) => 0
    case Subquery(inner) => Levels(inner)
  }
}
