/**
 * The record identity through a pipeline, told on rows: which clauses leave the column
 * `id` as it is, and clauses that take it away wherever they are free to.
 */
module PipelineIdentity {
  import opened Values
  import opened Pipelines

  const ID := "id"

  /** The two rows have the same identity, or neither has one. */
  predicate SameIdentity(a: Row, b: Row) {
    (ID in a <==> ID in b) && (ID in a ==> a[ID] == b[ID])
  }

  predicate CarriesFrom(row: Row, from: seq<Row>) {
    exists r :: r in from && SameIdentity(row, r)
  }

  /** Every row has the identity of some row of `from`. */
  predicate AllCarry(rows: seq<Row>, from: seq<Row>) {
    forall r :: r in rows ==> CarriesFrom(r, from)
  }

  /** Sorting hands out rows it was given. */
  ghost predicate OrderKeepsRows(c: Clauses) {
    forall clause, rows, r :: r in c.ordered(clause, rows) ==> r in rows
  }

  ghost predicate SplitKeepsIdentity(c: Clauses) {
    forall field, row, r :: r in c.split(field, row) ==> SameIdentity(r, row)
  }

  ghost predicate ListKeepsIdentity(c: Clauses, fields: string) {
    forall row :: SameIdentity(c.project(fields, row), row)
  }

  /** The field list a stage adds to or leaves the columns in, if it is one that does. */
  function KeepingList(stage: Stage): Option<string> {
    match stage
    case ProjectFields(fields, reshapes) => if reshapes then None else Some(fields)
    case AddFields(added) => Some("*, " + added)
    case _ => None
  }

  /**
   * What is asked of the clauses: sorting and SPLIT keep the identity, and so do the
   * lists the stages say leave the columns. Grouping and every other list are free.
   */
  ghost predicate KeepsIdentity(c: Clauses, stages: seq<Stage>) {
    && OrderKeepsRows(c) && SplitKeepsIdentity(c)
    && forall i :: 0 <= i < |stages| && KeepingList(stages[i]).Some? ==> ListKeepsIdentity(c, KeepingList(stages[i]).value)
  }

  // A stage that replaces nothing.

  lemma CarryTransitive(rows: seq<Row>, middle: seq<Row>, from: seq<Row>)
    requires AllCarry(rows, middle) && AllCarry(middle, from)
    ensures AllCarry(rows, from)
  {
    forall r | r in rows
      ensures CarriesFrom(r, from)
    {
      assert CarriesFrom(r, middle);
      var m :| m in middle && SameIdentity(r, m);
      assert CarriesFrom(m, from);
      var f :| f in from && SameIdentity(m, f);
      assert SameIdentity(r, f);
    }
  }

  lemma SubsetCarries(rows: seq<Row>, from: seq<Row>)
    requires forall r :: r in rows ==> r in from
    ensures AllCarry(rows, from)
  {
    forall r | r in rows
      ensures CarriesFrom(r, from)
    {
      assert SameIdentity(r, r);
    }
  }

  lemma {:induction false} FilterCarries(c: Clauses, clause: string, rows: seq<Row>)
    ensures forall r :: r in Filter(c, clause, rows) ==> r in rows && c.matches(clause, r)
  {
    if rows != [] {
      FilterCarries(c, clause, rows[1..]);
    }
  }

  lemma {:induction false} SplitCarries(c: Clauses, field: string, rows: seq<Row>)
    requires SplitKeepsIdentity(c)
    ensures AllCarry(Split(c, field, rows), rows)
  {
    if rows != [] {
      SplitCarries(c, field, rows[1..]);
      forall r | r in Split(c, field, rows)
        ensures CarriesFrom(r, rows)
      {
        if r in c.split(field, rows[0]) {
          assert SameIdentity(r, rows[0]);
        } else {
          assert CarriesFrom(r, rows[1..]);
        }
      }
    }
  }

  lemma ProjectCarries(c: Clauses, fields: string, rows: seq<Row>)
    requires ListKeepsIdentity(c, fields)
    ensures AllCarry(Project(c, fields, rows), rows)
  {
    var projected := Project(c, fields, rows);
    forall r | r in projected
      ensures CarriesFrom(r, rows)
    {
      var i :| 0 <= i < |projected| && projected[i] == r;
      assert SameIdentity(r, rows[i]);
    }
  }

  lemma OrderCarries(c: Clauses, clause: string, rows: seq<Row>)
    requires OrderKeepsRows(c)
    ensures AllCarry(c.ordered(clause, rows), rows)
  {
    SubsetCarries(c.ordered(clause, rows), rows);
  }

  lemma SliceCarries(n: nat, rows: seq<Row>)
    ensures AllCarry(Skip(n, rows), rows) && AllCarry(Take(n, rows), rows)
  {
    SubsetCarries(Skip(n, rows), rows);
    SubsetCarries(Take(n, rows), rows);
  }

  lemma UnwindCarries(c: Clauses, field: string, kept: Option<string>, rows: seq<Row>)
    requires SplitKeepsIdentity(c)
    ensures AllCarry(RunStage(c, Unwind(field, kept), rows), rows)
  {
    var guarded := if kept.Some? then Filter(c, kept.value, rows) else rows;
    if kept.Some? {
      FilterCarries(c, kept.value, rows);
    }
    SubsetCarries(guarded, rows);
    SplitCarries(c, field, guarded);
    CarryTransitive(Split(c, field, guarded), guarded, rows);
  }

  /** Neither a group nor a list that replaces the columns: each row keeps an identity it was given. */
  lemma StageCarries(c: Clauses, stage: Stage, rows: seq<Row>)
    requires KeepsIdentity(c, [stage]) && !stage.Group? && (stage.ProjectFields? ==> !stage.reshapes)
    ensures AllCarry(RunStage(c, stage, rows), rows)
  {
    assert KeepingList([stage][0]).Some? ==> ListKeepsIdentity(c, KeepingList([stage][0]).value);
    SubsetCarries(rows, rows);
    match stage
    case Match(clause) =>
      FilterCarries(c, clause, rows);
      SubsetCarries(Filter(c, clause, rows), rows);
    case Unwind(field, kept) => UnwindCarries(c, field, kept, rows);
    case ProjectFields(fields, _) => ProjectCarries(c, fields, rows);
    case AddFields(added) => ProjectCarries(c, "*, " + added, rows);
    case Sort(clause) => OrderCarries(c, clause, rows);
    case Sample(size) =>
      var shuffled := c.ordered(RANDOM_ORDER, rows);
      OrderCarries(c, RANDOM_ORDER, rows);
      SliceCarries(size, shuffled);
      CarryTransitive(Take(size, shuffled), shuffled, rows);
    case SkipRows(n) => SliceCarries(n, rows);
    case LimitRows(n) => SliceCarries(n, rows);
    case Materialise(_) =>
  }

  // Clauses that take the identity away wherever they may.

  /** The list must keep the identity: `*` leaves a row as it is, and some stage says this one leaves the columns. */
  predicate MustKeep(stages: seq<Stage>, fields: string) {
    fields == "*" || exists i :: 0 <= i < |stages| && KeepingList(stages[i]) == Some(fields)
  }

  /** Groups and every list that need not keep it have no column `id`; nothing else changes a row. */
  function Stripping(stages: seq<Stage>): Clauses {
    Clauses((_, _) => true,
            (_, row) => [row],
            (_, _, rows) => seq(|rows|, _ => map[]),
            (fields: string, row: Row) => if MustKeep(stages, fields) then row else row - {ID},
            (_, rows) => rows)
  }

  lemma StrippingIsAllowed(stages: seq<Stage>)
    ensures StarKeepsRows(Stripping(stages)) && KeepsIdentity(Stripping(stages), stages)
  {
    forall i | 0 <= i < |stages| && KeepingList(stages[i]).Some?
      ensures ListKeepsIdentity(Stripping(stages), KeepingList(stages[i]).value)
    {
      assert MustKeep(stages, KeepingList(stages[i]).value);
    }
  }

  /** No list is said both to leave the columns and to replace them. */
  predicate ListsTold(stages: seq<Stage>) {
    forall i :: 0 <= i < |stages| && stages[i].ProjectFields? && stages[i].reshapes ==> !MustKeep(stages, stages[i].fields)
  }

  predicate AllStripped(rows: seq<Row>) {
    forall r :: r in rows ==> ID !in r
  }

  /** How many rows are left of `n` where nothing is filtered out or unwound. */
  function Count(stage: Stage, n: nat): nat {
    match stage
    case Sample(size) => if size < n then size else n
    case SkipRows(rows) => if rows < n then n - rows else 0
    case LimitRows(rows) => if rows < n then rows else n
    case _ => n
  }

  function CountAll(stages: seq<Stage>, n: nat): nat {
    if stages == [] then n else Count(stages[|stages| - 1], CountAll(stages[..|stages| - 1], n))
  }

  lemma {:induction false} FilterAll(c: Clauses, clause: string, rows: seq<Row>)
    requires forall text, row :: c.matches(text, row)
    ensures Filter(c, clause, rows) == rows
  {
    if rows != [] {
      FilterAll(c, clause, rows[1..]);
      assert rows == [rows[0]] + rows[1..];
    }
  }

  lemma {:induction false} SplitAll(c: Clauses, field: string, rows: seq<Row>)
    requires forall text, row :: c.split(text, row) == [row]
    ensures Split(c, field, rows) == rows
  {
    if rows != [] {
      SplitAll(c, field, rows[1..]);
      assert rows == [rows[0]] + rows[1..];
    }
  }

  /** Under these clauses no stage brings an identity back, and a group or a replacing list takes it from every row. */
  lemma StageStrips(all: seq<Stage>, stage: Stage, rows: seq<Row>)
    ensures var after := RunStage(Stripping(all), stage, rows);
            && |after| == Count(stage, |rows|)
            && (AllStripped(rows) || stage.Group? || (stage.ProjectFields? && !MustKeep(all, stage.fields)) ==> AllStripped(after))
  {
    var c := Stripping(all);
    match stage
    case Match(clause) => FilterAll(c, clause, rows);
    case Unwind(field, kept) =>
      if kept.Some? {
        FilterAll(c, kept.value, rows);
      }
      SplitAll(c, field, rows);
    case _ =>
  }
}
