/**
 * Folding stages into as few SELECTs as they need: the builder's state, its
 * specification, and the proofs that folding keeps the pipeline's meaning and
 * nests no more often than any legal way of cutting the stages would.
 */
module SelectBuilders {
  import opened Values
  import opened Pipelines
  import opened PipelineIdentity

  // The slots of a SELECT, numbered in the order the server evaluates them.
  const SOURCE: nat := 0
  const WHERE: nat := 1
  const SPLIT: nat := 2
  const GROUP: nat := 3
  const FIELDS: nat := 4
  const ORDER: nat := 5
  const START: nat := 6
  const LIMIT: nat := 7

  /** One SELECT under construction, and the highest slot it has filled. */
  datatype Level = Level(select: Select, highest: nat, grouped: bool, splitUsed: bool)

  /** What the builder holds. */
  datatype State = State(level: Level, reshaped: bool, preamble: seq<LetStatement>)

  function EmptyLevel(from: Source): Level {
    Level(Select(from, "*", None, None, None, None, None, None), SOURCE, false, false)
  }

  function Max(a: nat, b: nat): nat {
    if a < b then b else a
  }

  // The specification of each operation.

  function Nested(level: Level): Level {
    EmptyLevel(Subquery(level.select))
  }

  predicate MustNest(level: Level, slot: nat, needsNoSplit: bool, needsNoGroup: bool) {
    slot <= level.highest || (needsNoSplit && level.splitUsed) || (needsNoGroup && level.grouped)
  }

  function Claimed(level: Level, slot: nat, needsNoSplit: bool, needsNoGroup: bool): Level {
    (if MustNest(level, slot, needsNoSplit, needsNoGroup) then Nested(level) else level).(highest := slot)
  }

  function WithFields(level: Level, fields: string): Level {
    level.(select := level.select.(fields := fields), highest := Max(level.highest, FIELDS))
  }

  function WithWhere(level: Level, clause: string): Level {
    level.(select := level.select.(where := Some(clause)))
  }

  function WithSplit(level: Level, field: string): Level {
    level.(select := level.select.(split := Some(field)), splitUsed := true, highest := Max(level.highest, FIELDS))
  }

  function WithGroup(level: Level, key: string): Level {
    level.(select := level.select.(groupBy := Some(key)), grouped := true)
  }

  function WithOrder(level: Level, clause: string): Level {
    level.(select := level.select.(orderBy := Some(clause)))
  }

  function WithStart(level: Level, n: nat): Level {
    level.(select := level.select.(start := Some(n)))
  }

  function WithLimit(level: Level, n: nat): Level {
    level.(select := level.select.(limit := Some(n)))
  }

  /** The level after a stage has claimed its slots and written its clauses. */
  function ApplyToLevel(level: Level, stage: Stage): Level {
    match stage
    case Match(clause) => if clause == "" then level else WithWhere(Claimed(level, WHERE, false, false), clause)
    case Unwind(field, kept) =>
      var guarded := if kept.Some? then WithWhere(Claimed(level, WHERE, false, false), kept.value) else level;
      WithSplit(Claimed(guarded, SPLIT, false, true), field)
    case Group(key, fields, outer) =>
      var grouped := WithFields(WithGroup(Claimed(level, GROUP, true, false), key), fields);
      if outer.Some? then WithFields(Claimed(grouped, FIELDS, false, false), outer.value) else grouped
    case ProjectFields(fields, _) => WithFields(Claimed(level, FIELDS, false, false), fields)
    case AddFields(added) =>
      var claimed := Claimed(level, FIELDS, false, false);
      WithFields(claimed, claimed.select.fields + ", " + added)
    case Sort(clause) => if clause == "" then level else WithOrder(Claimed(level, ORDER, false, false), clause)
    case Sample(size) => WithLimit(Claimed(WithOrder(Claimed(level, ORDER, false, false), RANDOM_ORDER), LIMIT, false, false), size)
    case SkipRows(n) => WithStart(Claimed(level, START, false, false), n)
    case LimitRows(n) => WithLimit(Claimed(level, LIMIT, false, false), n)
    case Materialise(name) => EmptyLevel(Variable(name))
  }

  /** Does the stage replace the documents' shape? */
  predicate Reshapes(stage: Stage) {
    stage.Group? || (stage.ProjectFields? && stage.reshapes)
  }

  function Apply(st: State, stage: Stage): State {
    State(ApplyToLevel(st.level, stage),
          st.reshaped || Reshapes(stage),
          if stage.Materialise? then st.preamble + [LetStatement(stage.name, st.level.select)] else st.preamble)
  }

  function ApplyAll(st: State, stages: seq<Stage>): State {
    if stages == [] then st else Apply(ApplyAll(st, stages[..|stages| - 1]), stages[|stages| - 1])
  }

  function Initial(table: string): State {
    State(EmptyLevel(Table(table)), false, [])
  }

  function Rendered(st: State): Batch {
    Batch(st.preamble, st.level.select)
  }

  // The invariant.

  /** Every clause above the highest filled slot is still empty, and SPLIT never meets GROUP. */
  predicate LevelOk(l: Level) {
    && (l.select.where.Some? ==> WHERE <= l.highest)
    && (l.select.split.Some? <==> l.splitUsed)
    && (l.select.groupBy.Some? <==> l.grouped)
    && (l.splitUsed || l.grouped || l.select.fields != "*" ==> FIELDS <= l.highest)
    && (l.select.orderBy.Some? ==> ORDER <= l.highest)
    && (l.select.start.Some? ==> START <= l.highest)
    && (l.select.limit.Some? ==> LIMIT <= l.highest)
    && !(l.splitUsed && l.grouped)
  }

  /** After a claim nothing is filled at the slot or above. */
  lemma ClaimKeepsLevelOk(level: Level, slot: nat, needsNoSplit: bool, needsNoGroup: bool)
    requires LevelOk(level) && slot > SOURCE
    ensures var claimed := Claimed(level, slot, needsNoSplit, needsNoGroup);
            LevelOk(claimed) && LevelOk(claimed.(highest := slot - 1)) && claimed.highest == slot
            && (needsNoSplit ==> !claimed.splitUsed) && (needsNoGroup ==> !claimed.grouped)
  {
  }

  lemma UnwindKeepsLevelOk(level: Level, field: string, kept: Option<string>)
    requires LevelOk(level)
    ensures LevelOk(ApplyToLevel(level, Unwind(field, kept)))
  {
    ClaimKeepsLevelOk(level, WHERE, false, false);
    var guarded := if kept.Some? then WithWhere(Claimed(level, WHERE, false, false), kept.value) else level;
    ClaimKeepsLevelOk(guarded, SPLIT, false, true);
  }

  lemma GroupKeepsLevelOk(level: Level, key: string, fields: string, outer: Option<string>)
    requires LevelOk(level)
    ensures LevelOk(ApplyToLevel(level, Group(key, fields, outer)))
  {
    ClaimKeepsLevelOk(level, GROUP, true, false);
    ClaimKeepsLevelOk(WithFields(WithGroup(Claimed(level, GROUP, true, false), key), fields), FIELDS, false, false);
  }

  lemma SampleKeepsLevelOk(level: Level, size: nat)
    requires LevelOk(level)
    ensures LevelOk(ApplyToLevel(level, Sample(size)))
  {
    ClaimKeepsLevelOk(level, ORDER, false, false);
    ClaimKeepsLevelOk(WithOrder(Claimed(level, ORDER, false, false), RANDOM_ORDER), LIMIT, false, false);
  }

  lemma ApplyKeepsLevelOk(level: Level, stage: Stage)
    requires LevelOk(level)
    ensures LevelOk(ApplyToLevel(level, stage))
  {
    match stage
    case Unwind(field, kept) => UnwindKeepsLevelOk(level, field, kept);
    case Group(key, fields, outer) => GroupKeepsLevelOk(level, key, fields, outer);
    case Sample(size) => SampleKeepsLevelOk(level, size);
    case Match(_) => ClaimKeepsLevelOk(level, WHERE, false, false);
    case AddFields(_) => ClaimKeepsLevelOk(level, FIELDS, false, false);
    case ProjectFields(_, _) => ClaimKeepsLevelOk(level, FIELDS, false, false);
    case Sort(_) => ClaimKeepsLevelOk(level, ORDER, false, false);
    case SkipRows(_) => ClaimKeepsLevelOk(level, START, false, false);
    case LimitRows(_) => ClaimKeepsLevelOk(level, LIMIT, false, false);
    case Materialise(_) =>
  }

  /** No statement a pipeline compiles to has both SPLIT and GROUP, at any depth. */
  predicate NoSplitWithGroup(s: Select)
    decreases s, 1
  {
    !(s.split.Some? && s.groupBy.Some?) && SourceNoSplitWithGroup(s.from)
  }

  predicate SourceNoSplitWithGroup(from: Source)
    decreases from, 0
  {
    from.Subquery? ==> NoSplitWithGroup(from.inner)
  }

  lemma {:induction false} SplitNeverMeetsGroup(table: string, stages: seq<Stage>)
    ensures var st := ApplyAll(Initial(table), stages);
            && LevelOk(st.level) && NoSplitWithGroup(st.level.select)
            && forall i :: 0 <= i < |st.preamble| ==> NoSplitWithGroup(st.preamble[i].value)
  {
    if stages != [] {
      var front, last := stages[..|stages| - 1], stages[|stages| - 1];
      SplitNeverMeetsGroup(table, front);
      var level := ApplyAll(Initial(table), front).level;
      ApplyKeepsLevelOk(level, last);
      NestingKeepsApart(level, last);
    }
  }

  lemma NestingKeepsApart(level: Level, stage: Stage)
    requires LevelOk(level) && NoSplitWithGroup(level.select)
    ensures NoSplitWithGroup(ApplyToLevel(level, stage).select)
  {
    ApplyKeepsLevelOk(level, stage);
    assert NoSplitWithGroup(Nested(level).select);
    match stage
    case Group(key, fields, outer) =>
      var grouped := WithFields(WithGroup(Claimed(level, GROUP, true, false), key), fields);
      assert NoSplitWithGroup(grouped.select);
    case Unwind(_, kept) =>
      var guarded := if kept.Some? then WithWhere(Claimed(level, WHERE, false, false), kept.value) else level;
      assert NoSplitWithGroup(guarded.select);
      assert NoSplitWithGroup(Nested(guarded).select);
    case Sample(_) =>
      var sorted := WithOrder(Claimed(level, ORDER, false, false), RANDOM_ORDER);
      assert NoSplitWithGroup(sorted.select);
    case _ =>
  }

  /** Setting SPLIT or the field list already fills FIELDS, so the exclusion flags decide nothing. */
  lemma FlagsDecideNothing(level: Level, needsNoSplit: bool, needsNoGroup: bool)
    requires LevelOk(level)
    ensures Claimed(level, GROUP, needsNoSplit, needsNoGroup) == Claimed(level, GROUP, false, false)
    ensures Claimed(level, SPLIT, needsNoSplit, needsNoGroup) == Claimed(level, SPLIT, false, false)
  {
  }

  // Folding keeps the meaning.

  lemma ProjectStar(c: Clauses, rows: seq<Row>)
    requires StarKeepsRows(c)
    ensures Project(c, "*", rows) == rows
  {
  }

  /** Closing a level into a subquery changes nothing. */
  lemma NestKeepsMeaning(c: Clauses, level: Level, store: Store)
    requires StarKeepsRows(c)
    ensures EvalSelect(c, Nested(level).select, store) == EvalSelect(c, level.select, store)
  {
    ProjectStar(c, EvalSelect(c, level.select, store));
  }

  lemma ClaimKeepsMeaning(c: Clauses, level: Level, slot: nat, needsNoSplit: bool, needsNoGroup: bool, store: Store)
    requires StarKeepsRows(c) && LevelOk(level) && slot > SOURCE
    ensures var claimed := Claimed(level, slot, needsNoSplit, needsNoGroup);
            && EvalSelect(c, claimed.select, store) == EvalSelect(c, level.select, store)
            && LevelOk(claimed.(highest := slot - 1))
  {
    NestKeepsMeaning(c, level, store);
  }

  /** A clause written into a level that has filled nothing from its slot on runs after the rest. */
  lemma ClauseRunsLast(c: Clauses, l: Level, rows: seq<Row>)
    requires StarKeepsRows(c) && LevelOk(l)
    ensures forall clause :: l.highest < WHERE ==>
              EvalClauses(c, WithWhere(l, clause).select, rows) == Filter(c, clause, EvalClauses(c, l.select, rows))
    ensures forall field :: l.highest < SPLIT ==>
              EvalClauses(c, WithSplit(l, field).select, rows) == Split(c, field, EvalClauses(c, l.select, rows))
    ensures forall key, fields :: l.highest < GROUP ==>
              EvalClauses(c, WithFields(WithGroup(l, key), fields).select, rows) == c.grouped(key, fields, EvalClauses(c, l.select, rows))
    ensures forall fields :: l.highest < FIELDS ==>
              EvalClauses(c, WithFields(l, fields).select, rows) == Project(c, fields, EvalClauses(c, l.select, rows))
    ensures forall clause :: l.highest < ORDER ==>
              EvalClauses(c, WithOrder(l, clause).select, rows) == c.ordered(clause, EvalClauses(c, l.select, rows))
    ensures forall n :: l.highest < START ==>
              EvalClauses(c, WithStart(l, n).select, rows) == Skip(n, EvalClauses(c, l.select, rows))
    ensures forall n :: l.highest < LIMIT ==>
              EvalClauses(c, WithLimit(l, n).select, rows) == Take(n, EvalClauses(c, l.select, rows))
  {
    var kept := if l.select.where.Some? then Filter(c, l.select.where.value, rows) else rows;
    var flat := if l.select.split.Some? then Split(c, l.select.split.value, kept) else kept;
    ProjectStar(c, rows);
    ProjectStar(c, kept);
    ProjectStar(c, flat);
    forall clause
      ensures Project(c, "*", Filter(c, clause, rows)) == Filter(c, clause, rows)
    {
      ProjectStar(c, Filter(c, clause, rows));
    }
    forall field
      ensures Project(c, "*", Split(c, field, kept)) == Split(c, field, kept)
    {
      ProjectStar(c, Split(c, field, kept));
    }
  }

  /** Claiming a slot and writing one clause into it runs that clause after everything before. */
  lemma StageKeepsMeaning(c: Clauses, level: Level, stage: Stage, store: Store)
    requires StarKeepsRows(c) && LevelOk(level) && !stage.Materialise?
    ensures EvalSelect(c, ApplyToLevel(level, stage).select, store) == RunStage(c, stage, EvalSelect(c, level.select, store))
  {
    match stage
    case Match(clause) =>
      if clause != "" {
        WhereKeepsMeaning(c, level, clause, store);
      }
    case Unwind(field, kept) => UnwindKeepsMeaning(c, level, field, kept, store);
    case Group(key, fields, outer) => GroupKeepsMeaning(c, level, key, fields, outer, store);
    case ProjectFields(fields, _) => FieldsKeepMeaning(c, level, fields, store);
    case AddFields(added) =>
      assert Claimed(level, FIELDS, false, false).select.fields == "*";
      assert "*" + ", " + added == "*, " + added;
      FieldsKeepMeaning(c, level, "*, " + added, store);
    case Sort(clause) =>
      if clause != "" {
        OrderKeepsMeaning(c, level, clause, store);
      }
    case Sample(size) =>
      OrderKeepsMeaning(c, level, RANDOM_ORDER, store);
      LimitKeepsMeaning(c, WithOrder(Claimed(level, ORDER, false, false), RANDOM_ORDER), size, store);
    case SkipRows(n) =>
      ClaimKeepsMeaning(c, level, START, false, false, store);
      var claimed := Claimed(level, START, false, false).(highest := ORDER);
      ClauseRunsLast(c, claimed, EvalSource(c, claimed.select.from, store));
    case LimitRows(n) => LimitKeepsMeaning(c, level, n, store);
  }

  lemma WhereKeepsMeaning(c: Clauses, level: Level, clause: string, store: Store)
    requires StarKeepsRows(c) && LevelOk(level)
    ensures var after := WithWhere(Claimed(level, WHERE, false, false), clause);
            EvalSelect(c, after.select, store) == Filter(c, clause, EvalSelect(c, level.select, store)) && LevelOk(after)
  {
    ClaimKeepsMeaning(c, level, WHERE, false, false, store);
    var claimed := Claimed(level, WHERE, false, false).(highest := SOURCE);
    ClauseRunsLast(c, claimed, EvalSource(c, claimed.select.from, store));
    assert WithWhere(claimed, clause).select == WithWhere(Claimed(level, WHERE, false, false), clause).select;
  }

  lemma UnwindKeepsMeaning(c: Clauses, level: Level, field: string, kept: Option<string>, store: Store)
    requires StarKeepsRows(c) && LevelOk(level)
    ensures EvalSelect(c, ApplyToLevel(level, Unwind(field, kept)).select, store)
         == RunStage(c, Unwind(field, kept), EvalSelect(c, level.select, store))
  {
    if kept.Some? {
      WhereKeepsMeaning(c, level, kept.value, store);
    }
    var guarded := if kept.Some? then WithWhere(Claimed(level, WHERE, false, false), kept.value) else level;
    ClaimKeepsMeaning(c, guarded, SPLIT, false, true, store);
    var claimed := Claimed(guarded, SPLIT, false, true).(highest := WHERE);
    ClauseRunsLast(c, claimed, EvalSource(c, claimed.select.from, store));
    assert WithSplit(claimed, field).select == WithSplit(Claimed(guarded, SPLIT, false, true), field).select;
  }

  lemma FieldsKeepMeaning(c: Clauses, level: Level, fields: string, store: Store)
    requires StarKeepsRows(c) && LevelOk(level)
    ensures EvalSelect(c, WithFields(Claimed(level, FIELDS, false, false), fields).select, store)
         == Project(c, fields, EvalSelect(c, level.select, store))
  {
    ClaimKeepsMeaning(c, level, FIELDS, false, false, store);
    var claimed := Claimed(level, FIELDS, false, false).(highest := GROUP);
    ClauseRunsLast(c, claimed, EvalSource(c, claimed.select.from, store));
    assert WithFields(claimed, fields).select == WithFields(Claimed(level, FIELDS, false, false), fields).select;
  }

  lemma GroupKeepsMeaning(c: Clauses, level: Level, key: string, fields: string, outer: Option<string>, store: Store)
    requires StarKeepsRows(c) && LevelOk(level)
    ensures EvalSelect(c, ApplyToLevel(level, Group(key, fields, outer)).select, store)
         == RunStage(c, Group(key, fields, outer), EvalSelect(c, level.select, store))
  {
    ClaimKeepsMeaning(c, level, GROUP, true, false, store);
    var claimed := Claimed(level, GROUP, true, false).(highest := SPLIT);
    ClauseRunsLast(c, claimed, EvalSource(c, claimed.select.from, store));
    var grouped := WithFields(WithGroup(Claimed(level, GROUP, true, false), key), fields);
    assert grouped.select == WithFields(WithGroup(claimed, key), fields).select;
    if outer.Some? {
      FieldsKeepMeaning(c, grouped, outer.value, store);
    }
  }

  lemma OrderKeepsMeaning(c: Clauses, level: Level, clause: string, store: Store)
    requires StarKeepsRows(c) && LevelOk(level)
    ensures var after := WithOrder(Claimed(level, ORDER, false, false), clause);
            EvalSelect(c, after.select, store) == c.ordered(clause, EvalSelect(c, level.select, store)) && LevelOk(after)
  {
    ClaimKeepsMeaning(c, level, ORDER, false, false, store);
    var claimed := Claimed(level, ORDER, false, false).(highest := FIELDS);
    ClauseRunsLast(c, claimed, EvalSource(c, claimed.select.from, store));
    assert WithOrder(claimed, clause).select == WithOrder(Claimed(level, ORDER, false, false), clause).select;
  }

  lemma LimitKeepsMeaning(c: Clauses, level: Level, n: nat, store: Store)
    requires StarKeepsRows(c) && LevelOk(level)
    ensures EvalSelect(c, WithLimit(Claimed(level, LIMIT, false, false), n).select, store)
         == Take(n, EvalSelect(c, level.select, store))
  {
    ClaimKeepsMeaning(c, level, LIMIT, false, false, store);
    var claimed := Claimed(level, LIMIT, false, false).(highest := START);
    ClauseRunsLast(c, claimed, EvalSource(c, claimed.select.from, store));
    assert WithLimit(claimed, n).select == WithLimit(Claimed(level, LIMIT, false, false), n).select;
  }

  /**
   * Every pipeline: the rendered batch answers with exactly the rows the stages
   * produce one after another.
   */
  lemma {:induction false} FoldingKeepsMeaning(c: Clauses, table: string, stages: seq<Stage>, store: Store)
    requires StarKeepsRows(c)
    ensures EvalBatch(c, Rendered(ApplyAll(Initial(table), stages)), store)
         == RunStages(c, stages, EvalSource(c, Table(table), store))
  {
    if stages == [] {
      ProjectStar(c, EvalSource(c, Table(table), store));
      assert BindLets(c, [], store) == store;
      TableSelect(c, table, store);
    } else {
      var front, last := stages[..|stages| - 1], stages[|stages| - 1];
      FoldingKeepsMeaning(c, table, front, store);
      SplitNeverMeetsGroup(table, front);
      var st := ApplyAll(Initial(table), front);
      if last.Materialise? {
        MaterialiseKeepsMeaning(c, st, last.name, store);
      } else {
        StageKeepsMeaning(c, st.level, last, BindLets(c, st.preamble, store));
      }
    }
  }

  lemma TableSelect(c: Clauses, table: string, store: Store)
    requires StarKeepsRows(c)
    ensures EvalSelect(c, EmptyLevel(Table(table)).select, store) == EvalSource(c, Table(table), store)
  {
    ProjectStar(c, EvalSource(c, Table(table), store));
  }

  lemma MaterialiseKeepsMeaning(c: Clauses, st: State, name: string, store: Store)
    requires StarKeepsRows(c)
    ensures EvalBatch(c, Rendered(Apply(st, Materialise(name))), store) == EvalBatch(c, Rendered(st), store)
  {
    var lets := st.preamble + [LetStatement(name, st.level.select)];
    assert lets[..|lets| - 1] == st.preamble;
    var rows := EvalBatch(c, Rendered(st), store);
    var after := BindLets(c, lets, store);
    assert EvalSource(c, Variable(name), after) == rows;
    ProjectStar(c, rows);
    assert EvalSelect(c, EmptyLevel(Variable(name)).select, after) == EvalClauses(c, EmptyLevel(Variable(name)).select, rows);
  }

  // Folding is optimal.

  /** The slots a stage claims, in order. */
  function Atoms(stage: Stage): seq<nat> {
    match stage
    case Match(clause) => if clause == "" then [] else [WHERE]
    case Unwind(_, kept) => if kept.Some? then [WHERE, SPLIT] else [SPLIT]
    case Group(_, _, outer) => if outer.Some? then [GROUP, FIELDS] else [GROUP]
    case ProjectFields(_, _) => [FIELDS]
    case AddFields(_) => [FIELDS]
    case Sort(clause) => if clause == "" then [] else [ORDER]
    case Sample(_) => [ORDER, LIMIT]
    case SkipRows(_) => [START]
    case LimitRows(_) => [LIMIT]
    case Materialise(_) => []
  }

  function AllAtoms(stages: seq<Stage>): seq<nat> {
    if stages == [] then [] else AllAtoms(stages[..|stages| - 1]) + Atoms(stages[|stages| - 1])
  }

  /**
   * May `later` share a statement with `earlier`? It must come after it in the
   * evaluation order; SPLIT excludes GROUP, and both need the field list as it is.
   */
  predicate MayShare(earlier: nat, later: nat) {
    earlier < later && ((earlier == SPLIT || earlier == GROUP) ==> FIELDS < later)
  }

  /** A run of clauses one SELECT can evaluate in the order the stages gave them. */
  predicate Legal(run: seq<nat>) {
    forall i, j :: 0 <= i < j < |run| ==> MayShare(run[i], run[j])
  }

  function Join(runs: seq<seq<nat>>): seq<nat> {
    if runs == [] then [] else runs[0] + Join(runs[1..])
  }

  /** The highest slot after writing a clause into `slot`. */
  function Raised(slot: nat): nat {
    if slot == SPLIT || slot == GROUP then FIELDS else slot
  }

  /** How often the builder nests over these claims, starting from a level that has filled `highest`. */
  function Nests(atoms: seq<nat>, highest: nat): nat {
    if atoms == [] then 0
    else (if atoms[0] <= highest then 1 else 0) + Nests(atoms[1..], Raised(atoms[0]))
  }

  function HighestAfter(atoms: seq<nat>, highest: nat): nat {
    if atoms == [] then highest else Raised(atoms[|atoms| - 1])
  }

  lemma {:induction false} NestsAppend(a: seq<nat>, b: seq<nat>, highest: nat)
    ensures Nests(a + b, highest) == Nests(a, highest) + Nests(b, HighestAfter(a, highest))
  {
    if a == [] {
      assert a + b == b;
    } else {
      assert (a + b)[1..] == a[1..] + b;
      NestsAppend(a[1..], b, Raised(a[0]));
    }
  }

  lemma {:induction false} LegalNeverNests(run: seq<nat>, highest: nat)
    requires Legal(run) && (run != [] ==> highest < run[0])
    ensures Nests(run, highest) == 0
  {
    if |run| > 1 {
      assert MayShare(run[0], run[1]);
      forall i, j | 0 <= i < j < |run[1..]|
        ensures MayShare(run[1..][i], run[1..][j])
      {
        assert MayShare(run[i + 1], run[j + 1]);
      }
      LegalNeverNests(run[1..], Raised(run[0]));
    } else if |run| == 1 {
      assert run[1..] == [];
    }
  }

  /** Wherever the builder stands, it is at most one nesting behind a fresh level. */
  lemma NeverFarBehind(atoms: seq<nat>, highest: nat)
    requires forall i :: 0 <= i < |atoms| ==> atoms[i] > SOURCE
    ensures Nests(atoms, highest) <= 1 + Nests(atoms, SOURCE)
  {
  }

  lemma {:induction false} GreedyIsOptimal(runs: seq<seq<nat>>)
    requires runs != []
    requires forall i :: 0 <= i < |runs| ==> Legal(runs[i])
    requires forall i :: 0 <= i < |Join(runs)| ==> Join(runs)[i] > SOURCE
    ensures Nests(Join(runs), SOURCE) <= |runs| - 1
    decreases |runs|
  {
    var rest := Join(runs[1..]);
    assert Join(runs) == runs[0] + rest;
    NestsAppend(runs[0], rest, SOURCE);
    if runs[0] != [] {
      assert Join(runs)[0] == runs[0][0];
    }
    LegalNeverNests(runs[0], SOURCE);
    forall i | 0 <= i < |rest|
      ensures rest[i] > SOURCE
    {
      assert Join(runs)[|runs[0]| + i] == rest[i];
    }
    if |runs| == 1 {
      assert rest == [];
    } else {
      GreedyIsOptimal(runs[1..]);
      NeverFarBehind(rest, HighestAfter(runs[0], SOURCE));
    }
  }

  /** What one stage adds to the nesting depth, and where it leaves the level. */
  lemma StageNests(level: Level, stage: Stage)
    requires LevelOk(level) && !stage.Materialise?
    ensures Levels(ApplyToLevel(level, stage).select) == Levels(level.select) + Nests(Atoms(stage), level.highest)
    ensures ApplyToLevel(level, stage).highest == HighestAfter(Atoms(stage), level.highest)
  {
    NestAddsLevel(level);
    match stage
    case Unwind(field, kept) =>
      if kept.Some? {
        NestsOfTwo(WHERE, SPLIT, level.highest);
        NestAddsLevel(WithWhere(Claimed(level, WHERE, false, false), kept.value));
      } else {
        NestsOfOne(SPLIT, level.highest);
      }
    case Group(key, fields, outer) =>
      if outer.Some? {
        NestsOfTwo(GROUP, FIELDS, level.highest);
        NestAddsLevel(WithFields(WithGroup(Claimed(level, GROUP, true, false), key), fields));
      } else {
        NestsOfOne(GROUP, level.highest);
      }
    case Sample(_) => NestsOfTwo(ORDER, LIMIT, level.highest);
    case Match(_) => NestsOfOne(WHERE, level.highest);
    case ProjectFields(_, _) => NestsOfOne(FIELDS, level.highest);
    case AddFields(_) => NestsOfOne(FIELDS, level.highest);
    case Sort(_) => NestsOfOne(ORDER, level.highest);
    case SkipRows(_) => NestsOfOne(START, level.highest);
    case LimitRows(_) => NestsOfOne(LIMIT, level.highest);
  }

  lemma NestAddsLevel(level: Level)
    ensures Levels(Nested(level).select) == 1 + Levels(level.select)
  {
  }

  lemma NestsOfOne(slot: nat, highest: nat)
    ensures Nests([slot], highest) == if slot <= highest then 1 else 0
  {
    assert [slot][1..] == [];
  }

  lemma NestsOfTwo(first: nat, second: nat, highest: nat)
    ensures Nests([first, second], highest)
         == (if first <= highest then 1 else 0) + (if second <= Raised(first) then 1 else 0)
  {
    NestsOfOne(second, Raised(first));
    assert [first, second][1..] == [second];
  }

  lemma {:induction false} AtomsArePastSource(stages: seq<Stage>)
    ensures forall i :: 0 <= i < |AllAtoms(stages)| ==> AllAtoms(stages)[i] > SOURCE
  {
    if stages != [] {
      AtomsArePastSource(stages[..|stages| - 1]);
    }
  }

  lemma {:induction false} FoldNests(table: string, stages: seq<Stage>)
    requires forall i :: 0 <= i < |stages| ==> !stages[i].Materialise?
    ensures var level := ApplyAll(Initial(table), stages).level;
            && Levels(level.select) == 1 + Nests(AllAtoms(stages), SOURCE)
            && level.highest == HighestAfter(AllAtoms(stages), SOURCE)
  {
    if stages != [] {
      var front, last := stages[..|stages| - 1], stages[|stages| - 1];
      FoldNests(table, front);
      SplitNeverMeetsGroup(table, front);
      StageNests(ApplyAll(Initial(table), front).level, last);
      NestsAppend(AllAtoms(front), Atoms(last), SOURCE);
    }
  }

  /**
   * No way of cutting the stages' clauses into consecutive legal SELECTs uses
   * fewer of them than the builder does.
   */
  lemma FoldIsOptimal(table: string, stages: seq<Stage>, runs: seq<seq<nat>>)
    requires forall i :: 0 <= i < |stages| ==> !stages[i].Materialise?
    requires runs != [] && Join(runs) == AllAtoms(stages)
    requires forall i :: 0 <= i < |runs| ==> Legal(runs[i])
    ensures Levels(ApplyAll(Initial(table), stages).level.select) <= |runs|
  {
    AtomsArePastSource(stages);
    FoldNests(table, stages);
    GreedyIsOptimal(runs);
  }

  /** The builder's own cut: legal runs, as many as the SELECTs it nests. */
  lemma {:induction false} FoldIsLegal(atoms: seq<nat>, highest: nat) returns (first: seq<nat>, runs: seq<seq<nat>>)
    ensures first + Join(runs) == atoms
    ensures |runs| == Nests(atoms, highest)
    ensures Legal(first) && (first != [] ==> highest < first[0])
    ensures forall i :: 0 <= i < |runs| ==> Legal(runs[i])
  {
    if atoms == [] {
      first, runs := [], [];
    } else {
      var tail, rest := FoldIsLegal(atoms[1..], Raised(atoms[0]));
      var run := [atoms[0]] + tail;
      RunExtends(atoms[0], tail);
      assert atoms == [atoms[0]] + atoms[1..];
      if atoms[0] <= highest {
        first, runs := [], [run] + rest;
        assert runs[1..] == rest;
        assert Join(runs) == run + Join(rest);
      } else {
        first, runs := run, rest;
      }
    }
  }

  lemma RunExtends(slot: nat, tail: seq<nat>)
    requires Legal(tail) && (tail != [] ==> Raised(slot) < tail[0])
    ensures Legal([slot] + tail)
  {
    forall j | 0 <= j < |tail|
      ensures MayShare(slot, tail[j])
    {
      if j > 0 {
        assert MayShare(tail[0], tail[j]);
      }
    }
    var run := [slot] + tail;
    forall i, j | 0 <= i < j < |run|
      ensures MayShare(run[i], run[j])
    {
      if i > 0 {
        assert MayShare(tail[i - 1], tail[j - 1]);
      }
    }
  }

  lemma {:induction false} ReshapedIsMonotone(st: State, stages: seq<Stage>)
    ensures ApplyAll(st, stages).reshaped <==> st.reshaped || exists i :: 0 <= i < |stages| && Reshapes(stages[i])
  {
    if stages != [] {
      ReshapedIsMonotone(st, stages[..|stages| - 1]);
    }
  }

  // What the report of the identity means for rows.

  /** Where no stage so far was marked as reshaping, every row has the identity of a row of the source. */
  lemma {:induction false} PlainRowsCarry(c: Clauses, table: string, stages: seq<Stage>, rows: seq<Row>)
    requires KeepsIdentity(c, stages) && !ApplyAll(Initial(table), stages).reshaped
    ensures AllCarry(RunStages(c, stages, rows), rows)
  {
    if stages == [] {
      SubsetCarries(rows, rows);
    } else {
      var front, last := stages[..|stages| - 1], stages[|stages| - 1];
      assert forall i :: 0 <= i < |front| ==> front[i] == stages[i];
      PlainRowsCarry(c, table, front, rows);
      var before := RunStages(c, front, rows);
      assert [last][0] == stages[|stages| - 1];
      StageCarries(c, last, before);
      CarryTransitive(RunStage(c, last, before), before, rows);
    }
  }

  /** Where one was, clauses are allowed under which no row has an identity. */
  lemma {:induction false} ReshapedRowsAreStripped(table: string, all: seq<Stage>, stages: seq<Stage>, rows: seq<Row>)
    requires ListsTold(all) && stages <= all
    ensures |RunStages(Stripping(all), stages, rows)| == CountAll(stages, |rows|)
    ensures ApplyAll(Initial(table), stages).reshaped ==> AllStripped(RunStages(Stripping(all), stages, rows))
  {
    if stages != [] {
      var front, last := stages[..|stages| - 1], stages[|stages| - 1];
      assert all[|stages| - 1] == last;
      ReshapedRowsAreStripped(table, all, front, rows);
      StageStrips(all, last, RunStages(Stripping(all), front, rows));
    }
  }

  /** The builder itself: fields rewritten in place by `Claim` and the setters. */
  class SelectBuilder {
    var level: Level
    var reshaped: bool
    var preamble: seq<LetStatement>

    ghost function View(): State
      reads this
    {
      State(level, reshaped, preamble)
    }

    constructor (table: string)
      ensures View() == Initial(table)
    {
      level := EmptyLevel(Table(table));
      reshaped := false;
      preamble := [];
    }

    method Nest()
      modifies this`level
      ensures level == Nested(old(level))
    {
      level := EmptyLevel(Subquery(level.select));
    }

    method Claim(slot: nat, needsNoSplit: bool, needsNoGroup: bool)
      modifies this`level
      ensures level == Claimed(old(level), slot, needsNoSplit, needsNoGroup)
    {
      var alreadyPassed := slot <= level.highest;
      var clashes := (needsNoSplit && level.splitUsed) || (needsNoGroup && level.grouped);
      if alreadyPassed || clashes {
        Nest();
      }
      level := level.(highest := slot);
    }

    method MaterialiseAs(name: string)
      modifies this
      ensures View() == Apply(old(View()), Materialise(name))
    {
      preamble := preamble + [LetStatement(name, level.select)];
      level := EmptyLevel(Variable(name));
    }

    method SetFields(fields: string, reshapes: bool)
      modifies this
      ensures level == WithFields(old(level), fields)
      ensures reshaped == (old(reshaped) || reshapes) && preamble == old(preamble)
    {
      level := level.(select := level.select.(fields := fields));
      level := level.(highest := Max(level.highest, FIELDS));
      if reshapes {
        reshaped := true;
      }
    }

    method SetWhere(clause: string)
      modifies this`level
      ensures level == WithWhere(old(level), clause)
    {
      level := level.(select := level.select.(where := Some(clause)));
    }

    method SetSplit(field: string)
      modifies this`level
      ensures level == WithSplit(old(level), field)
    {
      level := level.(select := level.select.(split := Some(field)));
      level := level.(splitUsed := true);
      level := level.(highest := Max(level.highest, FIELDS));
    }

    method SetGroup(key: string)
      modifies this`level
      ensures level == WithGroup(old(level), key)
    {
      level := level.(select := level.select.(groupBy := Some(key)));
      level := level.(grouped := true);
    }

    method SetOrderBy(clause: string)
      modifies this`level
      ensures level == WithOrder(old(level), clause)
    {
      level := level.(select := level.select.(orderBy := Some(clause)));
    }

    method SetStart(n: nat)
      modifies this`level
      ensures level == WithStart(old(level), n)
    {
      level := level.(select := level.select.(start := Some(n)));
    }

    method SetLimit(n: nat)
      modifies this`level
      ensures level == WithLimit(old(level), n)
    {
      level := level.(select := level.select.(limit := Some(n)));
    }

    /** One stage: claim the slots it needs, then write its clauses. */
    method ApplyStage(stage: Stage)
      modifies this
      ensures View() == Apply(old(View()), stage)
    {
      match stage
      case Match(clause) =>
        if clause != "" {
          Claim(WHERE, false, false);
          SetWhere(clause);
        }
      case Unwind(field, kept) =>
        if kept.Some? {
          Claim(WHERE, false, false);
          SetWhere(kept.value);
        }
        Claim(SPLIT, false, true);
        SetSplit(field);
      case Group(key, fields, outer) =>
        Claim(GROUP, true, false);
        SetGroup(key);
        SetFields(fields, true);
        if outer.Some? {
          Claim(FIELDS, false, false);
          SetFields(outer.value, true);
        }
      case ProjectFields(fields, reshapes) =>
        Claim(FIELDS, false, false);
        SetFields(fields, reshapes);
      case AddFields(added) =>
        Claim(FIELDS, false, false);
        SetFields(level.select.fields + ", " + added, false);
      case Sort(clause) =>
        if clause != "" {
          Claim(ORDER, false, false);
          SetOrderBy(clause);
        }
      case Sample(size) =>
        Claim(ORDER, false, false);
        SetOrderBy(RANDOM_ORDER);
        Claim(LIMIT, false, false);
        SetLimit(size);
      case SkipRows(n) =>
        Claim(START, false, false);
        SetStart(n);
      case LimitRows(n) =>
        Claim(LIMIT, false, false);
        SetLimit(n);
      case Materialise(name) =>
        MaterialiseAs(name);
    }

    method ApplyStages(stages: seq<Stage>)
      modifies this
      ensures View() == ApplyAll(old(View()), stages)
    {
      for i := 0 to |stages|
        invariant View() == ApplyAll(old(View()), stages[..i])
      {
        assert stages[..i + 1][..i] == stages[..i];
        ApplyStage(stages[i]);
      }
      assert stages[..|stages|] == stages;
    }

    method RenderBatch() returns (batch: Batch)
      ensures batch == Rendered(View())
    {
      batch := Batch(preamble, level.select);
    }
  }

  /** The whole translation: what it sends answers with the pipeline's rows. */
  method TranslatePipeline(table: string, stages: seq<Stage>) returns (batch: Batch, plainId: bool)
    ensures forall c, store :: StarKeepsRows(c) ==>
              EvalBatch(c, batch, store) == RunStages(c, stages, EvalSource(c, Table(table), store))
    ensures plainId <==> exists i :: 0 <= i < |stages| && Reshapes(stages[i])
    ensures !plainId ==> forall c, store :: StarKeepsRows(c) && KeepsIdentity(c, stages) ==>
                                              AllCarry(EvalBatch(c, batch, store), EvalSource(c, Table(table), store))
    ensures plainId && ListsTold(stages) ==>
              forall store :: AllStripped(EvalBatch(Stripping(stages), batch, store))
                              && |EvalBatch(Stripping(stages), batch, store)|
                                 == CountAll(stages, |EvalSource(Stripping(stages), Table(table), store)|)
  {
    var builder := new SelectBuilder(table);
    builder.ApplyStages(stages);
    batch := builder.RenderBatch();
    plainId := builder.reshaped;
    forall c, store | StarKeepsRows(c)
      ensures EvalBatch(c, batch, store) == RunStages(c, stages, EvalSource(c, Table(table), store))
    {
      FoldingKeepsMeaning(c, table, stages, store);
    }
    ReshapedIsMonotone(Initial(table), stages);
    IdentityIsTold(table, stages, batch);
  }

  /** The identity is reported as plain exactly when the rows may have lost it. */
  lemma IdentityIsTold(table: string, stages: seq<Stage>, batch: Batch)
    requires forall c, store :: StarKeepsRows(c) ==> EvalBatch(c, batch, store) == RunStages(c, stages, EvalSource(c, Table(table), store))
    ensures var plainId := ApplyAll(Initial(table), stages).reshaped;
            && (!plainId ==> forall c, store :: StarKeepsRows(c) && KeepsIdentity(c, stages) ==>
                                                  AllCarry(EvalBatch(c, batch, store), EvalSource(c, Table(table), store)))
            && (plainId && ListsTold(stages) ==>
                  forall store :: AllStripped(EvalBatch(Stripping(stages), batch, store))
                                  && |EvalBatch(Stripping(stages), batch, store)|
                                     == CountAll(stages, |EvalSource(Stripping(stages), Table(table), store)|))
  {
    if ApplyAll(Initial(table), stages).reshaped {
      if ListsTold(stages) {
        StrippingIsAllowed(stages);
        forall store
          ensures AllStripped(EvalBatch(Stripping(stages), batch, store))
          ensures |EvalBatch(Stripping(stages), batch, store)| == CountAll(stages, |EvalSource(Stripping(stages), Table(table), store)|)
        {
          ReshapedRowsAreStripped(table, stages, stages, EvalSource(Stripping(stages), Table(table), store));
        }
      }
    } else {
      forall c, store | StarKeepsRows(c) && KeepsIdentity(c, stages)
        ensures AllCarry(EvalBatch(c, batch, store), EvalSource(c, Table(table), store))
      {
        PlainRowsCarry(c, table, stages, EvalSource(c, Table(table), store));
      }
    }
  }
}
