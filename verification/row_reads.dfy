/**
 * The compiler's test for whether an expression reads the row agrees with the server's
 * on every operand without a `$let`, which therefore collects one element per row on
 * either kind of server.
 */
module RowReads {
  import opened Values
  import opened ExpressionSource
  import opened SurrealTerms
  import opened ExpressionCompiler
  import opened Accumulators

  predicate LetFree(e: Expr)
    decreases e
  {
    match e
    case Field(_) => true
    case Variable(_) => true
    case Literal(_) => true
    case Strict(_, args) => LetFreeAll(args)
    case Cond(test, yes, no) => LetFree(test) && LetFree(yes) && LetFree(no)
    case IfNull(args) => LetFreeAll(args)
    case Switch(branches, otherwise) => LetFreeBranches(branches) && (otherwise.Some? ==> LetFree(otherwise.value))
    case MapOver(input, _, body) => LetFree(input) && LetFree(body)
    case FilterOver(input, _, body, limit) => LetFree(input) && LetFree(body) && (limit.Some? ==> LetFree(limit.value))
    case Reduce(input, initial, body) => LetFree(input) && LetFree(initial) && LetFree(body)
    case Let(_, _) => false
    case Document(fields) => LetFreeBindings(fields)
  }

  predicate LetFreeAll(es: seq<Expr>) {
    es == [] || (LetFree(es[0]) && LetFreeAll(es[1..]))
  }

  predicate LetFreeBindings(bs: seq<Binding>) {
    bs == [] || (LetFree(bs[0].value) && LetFreeBindings(bs[1..]))
  }

  predicate LetFreeBranches(bs: seq<Branch>) {
    bs == [] || (LetFreeBranch(bs[0]) && LetFreeBranches(bs[1..]))
  }

  predicate LetFreeBranch(b: Branch) {
    LetFree(b.test) && LetFree(b.outcome)
  }

  // A built term reads what any of its operands reads.

  lemma {:induction false} ChainReads(fn: Fn, ts: seq<Term>, i: nat)
    requires i < |ts| && TermReads(ts[i])
    ensures TermReads(Chain(fn, ts))
  {
    if |ts| > 1 {
      var front, last := ts[..|ts| - 1], ts[|ts| - 1];
      if i < |front| {
        ChainReads(fn, front, i);
      }
      var pair := [Chain(fn, front), last];
      assert TermReads(pair[0]) || TermReads(pair[1]);
      AnyReadsAt(pair);
    }
  }

  lemma {:induction false} CoalesceReads(ts: seq<Term>)
    requires |ts| > 0 && AnyTermReads(ts)
    ensures TermReads(CoalesceAll(ts))
  {
    if |ts| > 1 {
      if !TermReads(ts[0]) {
        CoalesceReads(ts[1..]);
      }
    } else {
      assert ts[1..] == [];
    }
  }

  lemma OneReads(t: Term)
    ensures AnyTermReads([t]) <==> TermReads(t)
  {
    assert [t][1..] == [];
  }

  lemma TwoRead(t: Term, u: Term)
    ensures AnyTermReads([t, u]) <==> TermReads(t) || TermReads(u)
  {
    OneReads(u);
    assert [t, u][1..] == [u];
  }

  lemma SetEqualsReads(ts: seq<Term>, i: nat)
    requires |ts| > 1 && i < |ts| && TermReads(ts[i])
    ensures TermReads(Chain(And, AdjacentPairs(CanonicalSets(ts))))
  {
    var sets := CanonicalSets(ts);
    var pairs := AdjacentPairs(sets);
    OneReads(ts[i]);
    OneReads(Apply(DistinctOf, [ts[i]]));
    var j := if i < |pairs| then i else i - 1;
    TwoRead(sets[j], sets[j + 1]);
    ChainReads(And, pairs, j);
  }

  lemma BuildReads(reg: Registry, op: Operator, ts: seq<Term>)
    requires Accepts(reg, op, |ts|) && AnyTermReads(ts)
    ensures TermReads(Build(reg, op, ts))
  {
    AnyReadsAt(ts);
    var i: nat :| i < |ts| && TermReads(ts[i]);
    match op
    case Call(_) =>
    case Add => ChainReads(Plus, ts, i);
    case Multiply => ChainReads(Times, ts, i);
    case Divide =>
      OneReads(ts[0]);
      TwoRead(Apply(CastFloat, [ts[0]]), ts[1]);
    case SetUnion => ChainReads(Union, ts, i);
    case SetIntersection => ChainReads(Intersect, ts, i);
    case SetDifference => OneReads(Apply(Complement, ts));
    case SetEquals => SetEqualsReads(ts, i);
    case SetIsSubset => TwoRead(ts[1], ts[0]);
    case MergeObjects => ChainReads(Extend, ts, i);
    case MakeArray =>
  }

  // What the compiler says reads the row does.

  lemma {:induction false} CompilesReading(e: Expr, reg: Registry, plain: bool, vars: Scope)
    requires LetFree(e) && ReadsRow(e) && Compile(e, reg, plain, vars).Success?
    ensures TermReads(Compile(e, reg, plain, vars).value)
    decreases e, 1
  {
    match e
    case Field(_) =>
    case Strict(op, args) =>
      CompilesReadingAll(args, reg, plain, vars);
      BuildReads(reg, op, CompileAll(args, reg, plain, vars).value);
    case Cond(test, yes, no) =>
      if ReadsRow(test) {
        CompilesReading(test, reg, plain, vars);
      } else if ReadsRow(yes) {
        CompilesReading(yes, reg, plain, vars);
      } else {
        CompilesReading(no, reg, plain, vars);
      }
    case IfNull(args) =>
      CompilesReadingAll(args, reg, plain, vars);
      CoalesceReads(CompileAll(args, reg, plain, vars).value);
    case Switch(_, _) => CompilesReadingCases(e, reg, plain, vars);
    case MapOver(input, alias, body) =>
      var _, _ := MapParts(e, reg, plain, vars);
      if ReadsRow(input) {
        CompilesReading(input, reg, plain, vars);
      } else {
        CompilesReading(body, reg, plain, vars[alias := Param(|vars|)]);
      }
    case FilterOver(_, _, _, _) => CompilesReadingFilter(e, reg, plain, vars);
    case Reduce(_, _, _) => CompilesReadingReduce(e, reg, plain, vars);
    case Document(fields) => CompilesReadingBindings(fields, reg, plain, vars);
  }

  lemma {:induction false} CompilesReadingCases(e: Expr, reg: Registry, plain: bool, vars: Scope)
    requires e.Switch? && LetFree(e) && ReadsRow(e) && Compile(e, reg, plain, vars).Success?
    ensures TermReads(Compile(e, reg, plain, vars).value)
    decreases e, 0
  {
    if e.otherwise.Some? {
      if ReadsRow(e.otherwise.value) {
        CompilesReading(e.otherwise.value, reg, plain, vars);
      }
      CompilesReadingSwitch(e.branches, Compile(e.otherwise.value, reg, plain, vars).value, reg, plain, vars);
    } else {
      CompilesReadingSwitch(e.branches, Bound(Absent), reg, plain, vars);
    }
  }

  lemma {:induction false} CompilesReadingFilter(e: Expr, reg: Registry, plain: bool, vars: Scope)
    requires e.FilterOver? && LetFree(e) && ReadsRow(e) && Compile(e, reg, plain, vars).Success?
    ensures TermReads(Compile(e, reg, plain, vars).value)
    decreases e, 0
  {
    var source, closure, limit := FilterParts(e, reg, plain, vars);
    if ReadsRow(e.input) {
      CompilesReading(e.input, reg, plain, vars);
    } else if ReadsRow(e.body) {
      CompilesReading(e.body, reg, plain, vars[e.alias := Param(|vars|)]);
    } else {
      CompilesReading(e.limit.value, reg, plain, vars);
    }
    if e.limit.Some? {
      SliceReads(ArrayFilter(source, |vars|, closure), limit);
    }
  }

  lemma SliceReads(list: Term, limit: Term)
    ensures TermReads(Apply(Slice, [list, Bound(Int(0)), limit])) <==> TermReads(list) || TermReads(limit)
  {
    TwoRead(Bound(Int(0)), limit);
    assert [list, Bound(Int(0)), limit][1..] == [Bound(Int(0)), limit];
  }

  lemma {:induction false} CompilesReadingReduce(e: Expr, reg: Registry, plain: bool, vars: Scope)
    requires e.Reduce? && LetFree(e) && ReadsRow(e) && Compile(e, reg, plain, vars).Success?
    ensures TermReads(Compile(e, reg, plain, vars).value)
    decreases e, 0
  {
    var seed, source, _ := ReduceParts(e, reg, plain, vars);
    if ReadsRow(e.initial) {
      CompilesReading(e.initial, reg, plain, vars);
    } else if ReadsRow(e.input) {
      CompilesReading(e.input, reg, plain, vars);
    } else {
      CompilesReading(e.body, reg, plain, vars["value" := Param(|vars|)]["this" := Param(|vars| + 1)]);
    }
    OneReads(seed);
    TwoRead(Apply(ArrayLiteral, [seed]), source);
  }

  lemma {:induction false} CompilesReadingAll(es: seq<Expr>, reg: Registry, plain: bool, vars: Scope)
    requires LetFreeAll(es) && ReadsRowAny(es) && CompileAll(es, reg, plain, vars).Success?
    ensures AnyTermReads(CompileAll(es, reg, plain, vars).value)
    decreases es, 0
  {
    var terms := CompileAll(es, reg, plain, vars).value;
    assert terms[1..] == CompileAll(es[1..], reg, plain, vars).value;
    if ReadsRow(es[0]) {
      CompilesReading(es[0], reg, plain, vars);
    } else {
      CompilesReadingAll(es[1..], reg, plain, vars);
    }
  }

  lemma {:induction false} CompilesReadingBindings(bs: seq<Binding>, reg: Registry, plain: bool, vars: Scope)
    requires LetFreeBindings(bs) && ReadsRowBindings(bs) && CompileBindings(bs, reg, plain, vars).Success?
    ensures AnyTermReads(CompileBindings(bs, reg, plain, vars).value)
    decreases bs, 0
  {
    var terms := CompileBindings(bs, reg, plain, vars).value;
    assert terms[1..] == CompileBindings(bs[1..], reg, plain, vars).value;
    if ReadsRow(bs[0].value) {
      CompilesReading(bs[0].value, reg, plain, vars);
    } else {
      CompilesReadingBindings(bs[1..], reg, plain, vars);
    }
  }

  lemma {:induction false} CompilesReadingSwitch(bs: seq<Branch>, fallback: Term, reg: Registry, plain: bool, vars: Scope)
    requires LetFreeBranches(bs) && (ReadsRowBranches(bs) || TermReads(fallback)) && CompileSwitch(bs, fallback, reg, plain, vars).Success?
    ensures TermReads(CompileSwitch(bs, fallback, reg, plain, vars).value)
    decreases bs, 0
  {
    if bs != [] {
      var rest := CompileSwitch(bs[1..], fallback, reg, plain, vars).value;
      if ReadsRowBranches(bs[1..]) || TermReads(fallback) {
        CompilesReadingSwitch(bs[1..], fallback, reg, plain, vars);
      }
      CompilesReadingBranch(bs[0], rest, reg, plain, vars);
    }
  }

  lemma {:induction false} CompilesReadingBranch(b: Branch, fallback: Term, reg: Registry, plain: bool, vars: Scope)
    requires LetFreeBranch(b) && (ReadsRowBranch(b) || TermReads(fallback)) && CompileBranch(b, fallback, reg, plain, vars).Success?
    ensures TermReads(CompileBranch(b, fallback, reg, plain, vars).value)
    decreases b, 0
  {
    if ReadsRow(b.test) {
      CompilesReading(b.test, reg, plain, vars);
    } else if ReadsRow(b.outcome) {
      CompilesReading(b.outcome, reg, plain, vars);
    }
  }

  /** On an operand without a `$let` the compiler's test is the server's. */
  lemma TestsAgree(operand: Expr, reg: Registry, plain: bool)
    requires LetFree(operand) && Compile(operand, reg, plain, map[]).Success?
    ensures ReadsRow(operand) <==> TermReads(Compile(operand, reg, plain, map[]).value)
  {
    if ReadsRow(operand) {
      CompilesReading(operand, reg, plain, map[]);
    } else {
      CompilesQuiet(operand, reg, plain, map[]);
    }
  }

  /** So it collects one element per row, in row order, duplicates kept, whatever the server. */
  lemma CollectWithoutLet(operand: Expr, reg: Registry, plain: bool, w: World, rows: seq<map<string, Value>>, values: seq<Value>, version: Version)
    requires LetFree(operand) && rows != [] && Compile(operand, reg, plain, map[]).Success?
    requires OnRows(Compile(operand, reg, plain, map[]).value, w, rows) == Some(values)
    ensures EvalProjection(Collect(operand, Compile(operand, reg, plain, map[]).value), w, rows, version) == Some(Arr(values))
  {
    TestsAgree(operand, reg, plain);
    CollectIsPerRow(operand, reg, plain, w, rows, values, version);
  }

  /** An accumulator is refused exactly for an operand that is, an unknown name, or a count that is not positive. */
  lemma AccumulatorCompilesExactly(acc: Accumulator, reg: Registry, folds: map<string, string>, plain: bool)
    ensures CompileAccumulator(acc, reg, folds, plain).Success? <==>
              || acc.Count? || (acc.Sum? && acc.operand == Literal(Int(1)))
              || (&& WellFormed(acc.operand, reg, {})
                  && (acc.Fold? ==> acc.name in folds)
                  && (acc.FirstN? || acc.LastN? || acc.MaxN? || acc.MinN? ==> acc.n > 0))
  {
    if !acc.Count? {
      var none: Scope := map[];
      assert none.Keys == {};
      CompilesExactlyWellFormed(acc.operand, reg, plain, none);
    }
  }
}
