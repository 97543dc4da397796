/**
 * `$group` accumulators: what the grouped statement collects, and what the
 * statement around it derives from the collected list.
 */
module Accumulators {
  import opened Values
  import opened Sequences
  import opened ExpressionSource
  import opened SurrealTerms
  import opened ExpressionCompiler
  import opened ExpressionOperators
  import opened ExpressionCorrectness
  import opened MissingValues
  import opened VariableCapture

  type Document = map<string, Value>

  // Which expressions read the row.

  /** The compiler's own test: does anything in the expression name a field? */
  predicate ReadsRow(e: Expr)
    decreases e, 0
  {
    match e
    case Field(_) => true
    case Variable(_) => false
    case Literal(_) => false
    case Strict(_, args) => ReadsRowAny(args)
    case Cond(test, yes, no) => ReadsRow(test) || ReadsRow(yes) || ReadsRow(no)
    case IfNull(args) => ReadsRowAny(args)
    case Switch(branches, otherwise) => ReadsRowBranches(branches) || (otherwise.Some? && ReadsRow(otherwise.value))
    case MapOver(input, _, body) => ReadsRow(input) || ReadsRow(body)
    case FilterOver(input, _, body, limit) => ReadsRow(input) || ReadsRow(body) || (limit.Some? && ReadsRow(limit.value))
    case Reduce(input, initial, body) => ReadsRow(input) || ReadsRow(initial) || ReadsRow(body)
    case Let(vars, body) => ReadsRowBindings(vars) || ReadsRow(body)
    case Document(fields) => ReadsRowBindings(fields)
  }

  predicate ReadsRowAny(es: seq<Expr>)
    decreases es, 0
  {
    es != [] && (ReadsRow(es[0]) || ReadsRowAny(es[1..]))
  }

  predicate ReadsRowBindings(bs: seq<Binding>)
    decreases bs, 0
  {
    bs != [] && (ReadsRow(bs[0].value) || ReadsRowBindings(bs[1..]))
  }

  predicate ReadsRowBranches(bs: seq<Branch>)
    decreases bs, 0
  {
    bs != [] && (ReadsRowBranch(bs[0]) || ReadsRowBranches(bs[1..]))
  }

  predicate ReadsRowBranch(b: Branch)
    decreases b, 0
  {
    ReadsRow(b.test) || ReadsRow(b.outcome)
  }

  /** The server's test, asked of the compiled term. */
  predicate TermReads(t: Term)
    decreases t
  {
    match t
    case Idiom(_) => true
    case Param(_) => false
    case Bound(_) => false
    case TimeNow => false
    case Apply(_, args) => AnyTermReads(args)
    case If(test, yes, no) => TermReads(test) || TermReads(yes) || TermReads(no)
    case Coalesce(first, fallback) => TermReads(first) || TermReads(fallback)
    case ArrayMap(input, _, body) => TermReads(input) || TermReads(body)
    case ArrayFilter(input, _, body) => TermReads(input) || TermReads(body)
    case ArrayReduce(input, _, _, body) => TermReads(input) || TermReads(body)
  }

  predicate AnyTermReads(ts: seq<Term>)
    decreases ts
  {
    ts != [] && (TermReads(ts[0]) || AnyTermReads(ts[1..]))
  }

  /** A term that reads no column has the same value on every row. */
  lemma {:induction false} RowIndependent(t: Term, w: World, a: Document, b: Document, params: Params)
    requires !TermReads(t)
    ensures EvalTerm(t, w, a, params) == EvalTerm(t, w, b, params)
    decreases t, 0, 0
  {
    match t
    case Param(_) =>
    case Bound(_) =>
    case TimeNow =>
    case Apply(_, args) => RowIndependentAll(args, w, a, b, params);
    case If(test, yes, no) =>
      RowIndependent(test, w, a, b, params);
      RowIndependent(yes, w, a, b, params);
      RowIndependent(no, w, a, b, params);
    case Coalesce(first, fallback) =>
      RowIndependent(first, w, a, b, params);
      RowIndependent(fallback, w, a, b, params);
    case ArrayMap(input, param, body) =>
      RowIndependent(input, w, a, b, params);
      var source := EvalTerm(input, w, a, params);
      if source.Some? && source.value.Arr? {
        RowIndependentEach(body, param, source.value.items, w, a, b, params);
      }
    case ArrayFilter(input, param, body) =>
      RowIndependent(input, w, a, b, params);
      var source := EvalTerm(input, w, a, params);
      if source.Some? && source.value.Arr? {
        RowIndependentEach(body, param, source.value.items, w, a, b, params);
      }
    case ArrayReduce(input, acc, current, body) =>
      RowIndependent(input, w, a, b, params);
      var source := EvalTerm(input, w, a, params);
      if source.Some? && source.value.Arr? && source.value.items != [] {
        RowIndependentFold(body, acc, current, source.value.items[0], source.value.items[1..], w, a, b, params);
      }
  }

  lemma {:induction false} RowIndependentAll(ts: seq<Term>, w: World, a: Document, b: Document, params: Params)
    requires !AnyTermReads(ts)
    ensures EvalTerms(ts, w, a, params) == EvalTerms(ts, w, b, params)
    decreases ts, 0, 0
  {
    if ts != [] {
      RowIndependent(ts[0], w, a, b, params);
      RowIndependentAll(ts[1..], w, a, b, params);
    }
  }

  lemma {:induction false} RowIndependentEach(body: Term, param: nat, xs: seq<Value>, w: World, a: Document, b: Document, params: Params)
    requires !TermReads(body)
    ensures EvalClosure(body, param, xs, w, a, params) == EvalClosure(body, param, xs, w, b, params)
    decreases body, 1, |xs|
  {
    if xs != [] {
      RowIndependent(body, w, a, b, params[param := xs[0]]);
      RowIndependentEach(body, param, xs[1..], w, a, b, params);
    }
  }

  lemma {:induction false} RowIndependentFold(body: Term, acc: nat, current: nat, seed: Value, xs: seq<Value>, w: World, a: Document, b: Document, params: Params)
    requires !TermReads(body)
    ensures EvalReduce(body, acc, current, seed, xs, w, a, params) == EvalReduce(body, acc, current, seed, xs, w, b, params)
    decreases body, 1, |xs|
  {
    if xs != [] {
      RowIndependent(body, w, a, b, params[acc := seed][current := xs[0]]);
      var next := EvalTerm(body, w, a, params[acc := seed][current := xs[0]]);
      if next.Some? {
        RowIndependentFold(body, acc, current, next.value, xs[1..], w, a, b, params);
      }
    }
  }

  // The two tests compared.

  lemma {:induction false} AnyReadsAt(ts: seq<Term>)
    ensures AnyTermReads(ts) <==> exists i :: 0 <= i < |ts| && TermReads(ts[i])
  {
    if ts != [] {
      AnyReadsAt(ts[1..]);
      if i :| 0 <= i < |ts| && TermReads(ts[i]) {
        assert i == 0 || ts[1..][i - 1] == ts[i];
      }
    }
  }

  /** Nothing in the scope reads the row. */
  predicate QuietAt(vars: Scope, n: string)
    requires n in vars
  {
    !TermReads(vars[n])
  }

  predicate Quiet(vars: Scope) {
    forall n {:trigger QuietAt(vars, n)} :: n in vars ==> QuietAt(vars, n)
  }

  lemma QuietParameter(vars: Scope, alias: string, k: nat)
    requires Quiet(vars)
    ensures Quiet(vars[alias := Param(k)])
  {
    var inner := vars[alias := Param(k)];
    forall n | n in inner
      ensures QuietAt(inner, n)
    {
      if n != alias {
        assert QuietAt(vars, n);
      }
    }
  }

  lemma {:induction false} QuietBindings(names: seq<string>, terms: seq<Term>, vars: Scope)
    requires |names| == |terms| && Quiet(vars) && !AnyTermReads(terms)
    ensures Quiet(BindAll(names, terms, vars))
  {
    if names != [] {
      var vars' := vars[names[0] := terms[0]];
      forall n | n in vars'
        ensures QuietAt(vars', n)
      {
        if n != names[0] {
          assert QuietAt(vars, n);
        }
      }
      QuietBindings(names[1..], terms[1..], vars');
    }
  }

  lemma {:induction false} ChainQuiet(fn: Fn, ts: seq<Term>)
    requires |ts| > 0 && forall i :: 0 <= i < |ts| ==> !TermReads(ts[i])
    ensures !TermReads(Chain(fn, ts))
  {
    if |ts| > 1 {
      var front, last := ts[..|ts| - 1], ts[|ts| - 1];
      ChainQuiet(fn, front);
      AnyReadsAt([Chain(fn, front), last]);
    }
  }

  lemma {:induction false} CoalesceQuiet(ts: seq<Term>)
    requires |ts| > 0 && !AnyTermReads(ts)
    ensures !TermReads(CoalesceAll(ts))
  {
    if |ts| > 1 {
      CoalesceQuiet(ts[1..]);
    }
  }

  lemma SetEqualsQuiet(ts: seq<Term>)
    requires |ts| > 1 && forall i :: 0 <= i < |ts| ==> !TermReads(ts[i])
    ensures !TermReads(Chain(And, AdjacentPairs(CanonicalSets(ts))))
  {
    var sets := CanonicalSets(ts);
    forall i | 0 <= i < |sets|
      ensures !TermReads(sets[i])
    {
      AnyReadsAt([ts[i]]);
      AnyReadsAt([Apply(DistinctOf, [ts[i]])]);
    }
    var pairs := AdjacentPairs(sets);
    forall i | 0 <= i < |pairs|
      ensures !TermReads(pairs[i])
    {
      AnyReadsAt([sets[i], sets[i + 1]]);
    }
    ChainQuiet(And, pairs);
  }

  lemma BuildQuiet(reg: Registry, op: Operator, ts: seq<Term>)
    requires Accepts(reg, op, |ts|) && !AnyTermReads(ts)
    ensures !TermReads(Build(reg, op, ts))
  {
    AnyReadsAt(ts);
    match op
    case Call(_) =>
    case Add => ChainQuiet(Plus, ts);
    case Multiply => ChainQuiet(Times, ts);
    case Divide =>
      AnyReadsAt([ts[0]]);
      AnyReadsAt([Apply(CastFloat, [ts[0]]), ts[1]]);
    case SetUnion => ChainQuiet(Union, ts);
    case SetIntersection => ChainQuiet(Intersect, ts);
    case SetDifference => AnyReadsAt([Apply(Complement, ts)]);
    case SetEquals => SetEqualsQuiet(ts);
    case SetIsSubset => AnyReadsAt([ts[1], ts[0]]);
    case MergeObjects => ChainQuiet(Extend, ts);
    case MakeArray =>
  }

  /** An expression that names no field compiles to a term that reads no column. */
  lemma {:induction false} CompilesQuiet(e: Expr, reg: Registry, plain: bool, vars: Scope)
    requires !ReadsRow(e) && Quiet(vars) && Compile(e, reg, plain, vars).Success?
    ensures !TermReads(Compile(e, reg, plain, vars).value)
    decreases e, 1
  {
    match e
    case Variable(name) =>
      if name in vars {
        assert QuietAt(vars, name);
      }
    case Literal(_) =>
    case Strict(op, args) =>
      CompilesQuietAll(args, reg, plain, vars);
      BuildQuiet(reg, op, CompileAll(args, reg, plain, vars).value);
    case Cond(test, yes, no) =>
      CompilesQuiet(test, reg, plain, vars);
      CompilesQuiet(yes, reg, plain, vars);
      CompilesQuiet(no, reg, plain, vars);
    case IfNull(args) =>
      CompilesQuietAll(args, reg, plain, vars);
      CoalesceQuiet(CompileAll(args, reg, plain, vars).value);
    case Switch(branches, otherwise) =>
      if otherwise.Some? {
        CompilesQuiet(otherwise.value, reg, plain, vars);
        CompilesQuietSwitch(branches, Compile(otherwise.value, reg, plain, vars).value, reg, plain, vars);
      } else {
        CompilesQuietSwitch(branches, Bound(Absent), reg, plain, vars);
      }
    case MapOver(input, alias, body) =>
      CompilesQuiet(input, reg, plain, vars);
      QuietParameter(vars, alias, |vars|);
      CompilesQuiet(body, reg, plain, vars[alias := Param(|vars|)]);
    case FilterOver(_, _, _, _) => CompilesQuietFilter(e, reg, plain, vars);
    case Reduce(_, _, _) => CompilesQuietReduce(e, reg, plain, vars);
    case Let(bindings, body) =>
      CompilesQuietBindings(bindings, reg, plain, vars);
      var terms := CompileBindings(bindings, reg, plain, vars).value;
      QuietBindings(Names(bindings), terms, vars);
      CompilesQuiet(body, reg, plain, BindAll(Names(bindings), terms, vars));
    case Document(fields) => CompilesQuietBindings(fields, reg, plain, vars);
  }

  lemma {:induction false} CompilesQuietFilter(e: Expr, reg: Registry, plain: bool, vars: Scope)
    requires e.FilterOver? && !ReadsRow(e) && Quiet(vars) && Compile(e, reg, plain, vars).Success?
    ensures !TermReads(Compile(e, reg, plain, vars).value)
    decreases e, 0
  {
    var source, closure, limit := FilterParts(e, reg, plain, vars);
    CompilesQuiet(e.input, reg, plain, vars);
    QuietParameter(vars, e.alias, |vars|);
    CompilesQuiet(e.body, reg, plain, vars[e.alias := Param(|vars|)]);
    if e.limit.Some? {
      CompilesQuiet(e.limit.value, reg, plain, vars);
      AnyReadsAt([ArrayFilter(source, |vars|, closure), Bound(Int(0)), limit]);
    }
  }

  lemma {:induction false} CompilesQuietReduce(e: Expr, reg: Registry, plain: bool, vars: Scope)
    requires e.Reduce? && !ReadsRow(e) && Quiet(vars) && Compile(e, reg, plain, vars).Success?
    ensures !TermReads(Compile(e, reg, plain, vars).value)
    decreases e, 0
  {
    var seed, source, closure := ReduceParts(e, reg, plain, vars);
    CompilesQuiet(e.initial, reg, plain, vars);
    CompilesQuiet(e.input, reg, plain, vars);
    QuietParameter(vars, "value", |vars|);
    QuietParameter(vars["value" := Param(|vars|)], "this", |vars| + 1);
    CompilesQuiet(e.body, reg, plain, vars["value" := Param(|vars|)]["this" := Param(|vars| + 1)]);
    AnyReadsAt([seed]);
    AnyReadsAt([Apply(ArrayLiteral, [seed]), source]);
  }

  lemma {:induction false} CompilesQuietAll(es: seq<Expr>, reg: Registry, plain: bool, vars: Scope)
    requires !ReadsRowAny(es) && Quiet(vars) && CompileAll(es, reg, plain, vars).Success?
    ensures !AnyTermReads(CompileAll(es, reg, plain, vars).value)
    decreases es, 0
  {
    if es != [] {
      CompilesQuiet(es[0], reg, plain, vars);
      CompilesQuietAll(es[1..], reg, plain, vars);
      var terms := CompileAll(es, reg, plain, vars).value;
      assert terms[1..] == CompileAll(es[1..], reg, plain, vars).value;
    }
  }

  lemma {:induction false} CompilesQuietBindings(bs: seq<Binding>, reg: Registry, plain: bool, vars: Scope)
    requires !ReadsRowBindings(bs) && Quiet(vars) && CompileBindings(bs, reg, plain, vars).Success?
    ensures !AnyTermReads(CompileBindings(bs, reg, plain, vars).value)
    decreases bs, 0
  {
    if bs != [] {
      CompilesQuiet(bs[0].value, reg, plain, vars);
      CompilesQuietBindings(bs[1..], reg, plain, vars);
      var terms := CompileBindings(bs, reg, plain, vars).value;
      assert terms[1..] == CompileBindings(bs[1..], reg, plain, vars).value;
    }
  }

  lemma {:induction false} CompilesQuietSwitch(bs: seq<Branch>, fallback: Term, reg: Registry, plain: bool, vars: Scope)
    requires !ReadsRowBranches(bs) && !TermReads(fallback) && Quiet(vars) && CompileSwitch(bs, fallback, reg, plain, vars).Success?
    ensures !TermReads(CompileSwitch(bs, fallback, reg, plain, vars).value)
    decreases bs, 0
  {
    if bs != [] {
      CompilesQuietSwitch(bs[1..], fallback, reg, plain, vars);
      CompilesQuietBranch(bs[0], CompileSwitch(bs[1..], fallback, reg, plain, vars).value, reg, plain, vars);
    }
  }

  lemma {:induction false} CompilesQuietBranch(b: Branch, fallback: Term, reg: Registry, plain: bool, vars: Scope)
    requires !ReadsRowBranch(b) && !TermReads(fallback) && Quiet(vars) && CompileBranch(b, fallback, reg, plain, vars).Success?
    ensures !TermReads(CompileBranch(b, fallback, reg, plain, vars).value)
    decreases b, 0
  {
    CompilesQuiet(b.test, reg, plain, vars);
    CompilesQuiet(b.outcome, reg, plain, vars);
  }

  // Grouping.

  /** How a server answers a bare projection the row cannot influence. */
  datatype Version = OnePerRow | OnePerGroup

  /** A projection of the grouped statement. */
  datatype Projection =
    | Bare(term: Term)
    | Repeated(term: Term)
    | RowCount
    | Aggregate(fn: string, term: Term)

  /** What the enclosing statement does with the collected list. */
  datatype Derivation =
    | ArrayFirst
    | ArrayLast
    | SliceFront(n: nat)
    | SliceBack(n: nat)
    | SortedDown(n: nat)
    | SortedUp(n: nat)

  datatype CompiledAccumulator = CompiledAccumulator(sql: Projection, derive: Option<Derivation>)

  datatype Accumulator =
    | Count
    | Sum(operand: Expr)
    | Fold(name: string, operand: Expr)
    | Push(operand: Expr)
    | First(operand: Expr)
    | Last(operand: Expr)
    | FirstN(operand: Expr, n: int)
    | LastN(operand: Expr, n: int)
    | MaxN(operand: Expr, n: int)
    | MinN(operand: Expr, n: int)

  datatype AccumulatorError = BadExpression(error: CompileError) | BadCount | UnknownAccumulator

  /** One element per row: bare where the row is read, else the value repeated. */
  function Collect(operand: Expr, term: Term): Projection {
    if ReadsRow(operand) then Bare(term) else Repeated(term)
  }

  function CompileAccumulator(acc: Accumulator, reg: Registry, folds: map<string, string>, plain: bool): Result<CompiledAccumulator, AccumulatorError> {
    if acc.Count? || (acc.Sum? && acc.operand == Literal(Int(1))) then Success(CompiledAccumulator(RowCount, None))
    else if (acc.FirstN? || acc.LastN? || acc.MaxN? || acc.MinN?) && acc.n < 1 then Failure(BadCount)
    else if acc.Fold? && acc.name !in folds then Failure(UnknownAccumulator)
    else
      var compiled := Compile(acc.operand, reg, plain, map[]);
      if compiled.Failure? then Failure(BadExpression(compiled.error)) else
      var term := compiled.value;
      Success(match acc
              case Sum(_) => CompiledAccumulator(Aggregate("math::sum", term), None)
              case Fold(name, _) => CompiledAccumulator(Aggregate(folds[name], term), None)
              case Push(_) => CompiledAccumulator(Collect(acc.operand, term), None)
              case First(_) => CompiledAccumulator(Collect(acc.operand, term), Some(ArrayFirst))
              case Last(_) => CompiledAccumulator(Collect(acc.operand, term), Some(ArrayLast))
              case FirstN(_, n) => CompiledAccumulator(Collect(acc.operand, term), Some(SliceFront(n)))
              case LastN(_, n) => CompiledAccumulator(Collect(acc.operand, term), Some(SliceBack(n)))
              case MaxN(_, n) => CompiledAccumulator(Collect(acc.operand, term), Some(SortedDown(n)))
              case MinN(_, n) => CompiledAccumulator(Collect(acc.operand, term), Some(SortedUp(n))))
  }

  /** The term's value on each row, in row order. */
  function OnRows(t: Term, w: World, rows: seq<Document>): (r: Option<seq<Value>>)
    ensures r.Some? ==> |r.value| == |rows|
  {
    if rows == [] then Some([]) else
    var head :- EvalTerm(t, w, rows[0], map[]);
    var tail :- OnRows(t, w, rows[1..]);
    Some([head] + tail)
  }

  /** The grouped statement's answer for one group. */
  function EvalProjection(p: Projection, w: World, rows: seq<Document>, version: Version): Option<Value>
    requires rows != []
  {
    match p
    case RowCount => Some(Int(|rows|))
    case Repeated(t) =>
      var value :- EvalTerm(t, w, rows[0], map[]);
      Some(Arr(seq(|rows|, _ => value)))
    case Bare(t) =>
      if version.OnePerGroup? && !TermReads(t) then EvalTerm(t, w, rows[0], map[]) else
      var values :- OnRows(t, w, rows);
      Some(Arr(values))
    case Aggregate(fn, t) =>
      var values :- OnRows(t, w, rows);
      w.surreal(fn, [Arr(values)])
  }

  function Reverse(s: seq<Value>): seq<Value> {
    seq(|s|, i requires 0 <= i < |s| => s[|s| - 1 - i])
  }

  function EvalDerivation(d: Derivation, w: World, collected: Value): Option<Value> {
    if !collected.Arr? then None else
    var list := collected.items;
    match d
    case ArrayFirst => Some(if list == [] then Absent else list[0])
    case ArrayLast => Some(if list == [] then Absent else list[|list| - 1])
    case SliceFront(n) => Some(Arr(FirstOf(list, n)))
    case SliceBack(n) => Some(Arr(if n < |list| then list[|list| - n..] else list))
    case SortedDown(n) => Some(Arr(FirstOf(Reverse(Sort(list, w.leq)), n)))
    case SortedUp(n) => Some(Arr(FirstOf(Sort(list, w.leq), n)))
  }

  function EvalAccumulator(c: CompiledAccumulator, w: World, rows: seq<Document>, version: Version): Option<Value>
    requires rows != []
  {
    var collected :- EvalProjection(c.sql, w, rows, version);
    if c.derive.None? then Some(collected) else EvalDerivation(c.derive.value, w, collected)
  }

  // What the accumulators mean on the list of operand values.

  /** `top` holds the `n` greatest values of `list`, greatest first. */
  ghost predicate Greatest(top: seq<Value>, list: seq<Value>, n: nat, leq: (Value, Value) -> bool) {
    && |top| == (if n < |list| then n else |list|)
    && multiset(top) <= multiset(list)
    && (forall i, j :: 0 <= i < j < |top| ==> leq(top[j], top[i]))
    && (forall x, i :: x in multiset(list) - multiset(top) && 0 <= i < |top| ==> leq(x, top[i]))
  }

  /** `low` holds the `n` least values of `list`, least first. */
  ghost predicate Least(low: seq<Value>, list: seq<Value>, n: nat, leq: (Value, Value) -> bool) {
    && |low| == (if n < |list| then n else |list|)
    && multiset(low) <= multiset(list)
    && Sorted(low, leq)
    && (forall x, i :: x in multiset(list) - multiset(low) && 0 <= i < |low| ==> leq(low[i], x))
  }

  /** The values MongoDB's `$push` keeps: a missing field contributes none. */
  function Present(values: seq<Value>): seq<Value> {
    Select(values, v => v != Absent)
  }

  /** The values MongoDB's `$maxN` and `$minN` rank. */
  function Ranked(values: seq<Value>): seq<Value> {
    Select(values, (v: Value) => !v.Nullish())
  }

  lemma {:induction false} RankedCounts(values: seq<Value>)
    ensures forall x :: multiset(Ranked(values))[x] == if x.Nullish() then 0 else multiset(values)[x]
    ensures |Ranked(values)| <= |values|
  {
    if values != [] {
      var front, last := values[..|values| - 1], values[|values| - 1];
      RankedCounts(front);
      assert values == front + [last];
    }
  }

  lemma {:induction false} PresentIsAll(values: seq<Value>)
    ensures Present(values) == values <==> Absent !in values
  {
    if Absent !in values && values != [] {
      var front := values[..|values| - 1];
      assert forall v :: v in front ==> v in values;
      PresentIsAll(front);
    }
  }

  /** `result` is the accumulator's answer for a group whose operand takes `values`. */
  ghost predicate Means(acc: Accumulator, w: World, folds: map<string, string>, values: seq<Value>, result: Option<Value>)
    requires values != []
  {
    match acc
    case Count => result == Some(Int(|values|))
    case Sum(_) =>
      if acc.operand == Literal(Int(1)) then result == Some(Int(|values|))
      else result == w.surreal("math::sum", [Arr(values)])
    case Fold(name, _) => name in folds && result == w.surreal(folds[name], [Arr(values)])
    case Push(_) => result == Some(Arr(Present(values)))
    case First(_) => result == Some(NullIfMissing(values[0]))
    case Last(_) => result == Some(NullIfMissing(values[|values| - 1]))
    case FirstN(_, n) =>
      result.Some? && result.value.Arr? && |result.value.items| == (if n < |values| then n else |values|)
      && forall i :: 0 <= i < |result.value.items| ==> result.value.items[i] == NullIfMissing(values[i])
    case LastN(_, n) =>
      result.Some? && result.value.Arr? && |result.value.items| == (if n < |values| then n else |values|)
      && forall i :: 0 <= i < |result.value.items| ==>
                       result.value.items[i] == NullIfMissing(values[|values| - |result.value.items| + i])
    case MaxN(_, n) => result.Some? && result.value.Arr? && n >= 0 && Greatest(result.value.items, Ranked(values), n, w.leq)
    case MinN(_, n) => result.Some? && result.value.Arr? && n >= 0 && Least(result.value.items, Ranked(values), n, w.leq)
  }

  /** The `n` last of a list. */
  function LastOf(values: seq<Value>, n: nat): seq<Value> {
    if n < |values| then values[|values| - n..] else values
  }

  predicate NoneNullish(values: seq<Value>) {
    forall v :: v in values ==> !v.Nullish()
  }

  /**
   * The values the accumulator hands out, or all of those collected, are none that
   * MongoDB answers otherwise: missing ones, and for `$maxN` and `$minN` null ones too.
   */
  predicate Unaffected(acc: Accumulator, w: World, values: seq<Value>)
    requires values != []
  {
    match acc
    case Push(_) => Absent !in values
    case First(_) => values[0] != Absent
    case Last(_) => values[|values| - 1] != Absent
    case FirstN(_, n) => n >= 0 ==> Absent !in FirstOf(values, n)
    case LastN(_, n) => n >= 0 ==> Absent !in LastOf(values, n)
    case MaxN(_, n) => n >= 0 ==> NoneNullish(FirstOf(Reverse(Sort(values, w.leq)), n))
    case MinN(_, n) => n >= 0 ==> NoneNullish(FirstOf(Sort(values, w.leq), n))
    case _ => true
  }

  lemma {:induction false} OnRowsAt(t: Term, w: World, rows: seq<Document>)
    ensures OnRows(t, w, rows).Some? <==> forall i :: 0 <= i < |rows| ==> EvalTerm(t, w, rows[i], map[]).Some?
    ensures OnRows(t, w, rows).Some? ==>
              forall i :: 0 <= i < |rows| ==> EvalTerm(t, w, rows[i], map[]) == Some(OnRows(t, w, rows).value[i])
  {
    if rows != [] {
      OnRowsAt(t, w, rows[1..]);
      assert forall i :: 0 < i < |rows| ==> rows[i] == rows[1..][i - 1];
      if forall i :: 0 <= i < |rows| ==> EvalTerm(t, w, rows[i], map[]).Some? {
        assert forall i :: 0 <= i < |rows[1..]| ==> rows[1..][i] == rows[i + 1];
      }
    }
  }

  /** No value is the first element of itself. */
  lemma NotItsOwnFirst(v: Value)
    requires v.Arr? && v.items != []
    ensures v.items[0] != v
  {
    var items := v.items;
    assert items[0] in items;
  }

  /**
   * Collecting yields one element per row, in row order, duplicates kept, on
   * either kind of server - except that a one-value-per-group server does not
   * where the operand names a field its compiled term never reads.
   */
  lemma CollectIsPerRow(operand: Expr, reg: Registry, plain: bool, w: World, rows: seq<Document>, values: seq<Value>, version: Version)
    requires rows != [] && Compile(operand, reg, plain, map[]).Success?
    requires OnRows(Compile(operand, reg, plain, map[]).value, w, rows) == Some(values)
    ensures EvalProjection(Collect(operand, Compile(operand, reg, plain, map[]).value), w, rows, version) == Some(Arr(values))
       <==> version.OnePerRow? || !ReadsRow(operand) || TermReads(Compile(operand, reg, plain, map[]).value)
  {
    var term := Compile(operand, reg, plain, map[]).value;
    OnRowsAt(term, w, rows);
    NotItsOwnFirst(Arr(values));
    if !ReadsRow(operand) {
      var scope: Scope := map[];
      CompilesQuiet(operand, reg, plain, scope);
      forall i | 0 <= i < |rows|
        ensures values[i] == values[0]
      {
        RowIndependent(term, w, rows[i], rows[0], map[]);
      }
      assert values == seq(|rows|, _ => values[0]);
    }
  }

  /** Such an operand exists: an unused `$let` variable disappears by substitution. */
  lemma UnusedVariableCollectsOnce(name: string, path: seq<string>, v: Value, reg: Registry, plain: bool, w: World, rows: seq<Document>)
    requires rows != []
    ensures var operand := Let([Binding(name, Field(path))], Literal(v));
            && ReadsRow(operand)
            && Compile(operand, reg, plain, map[]) == Success(Bound(v))
            && EvalProjection(Collect(operand, Bound(v)), w, rows, OnePerGroup) == Some(v)
            && OnRows(Bound(v), w, rows) == Some(seq(|rows|, _ => v))
  {
    var bindings := [Binding(name, Field(path))];
    assert bindings[1..] == [];
    assert ReadsRowBindings(bindings);
    assert CompileBindings([], reg, plain, map[]).Success?;
    assert CompileBindings(bindings, reg, plain, map[]).Success?;
    var terms := CompileBindings(bindings, reg, plain, map[]).value;
    assert Compile(Literal(v), reg, plain, BindAll(Names(bindings), terms, map[])) == Success(Bound(v));
    OnRowsAt(Bound(v), w, rows);
    assert OnRows(Bound(v), w, rows).value == seq(|rows|, _ => v);
  }

  lemma SplitMultiset(s: seq<Value>, front: seq<Value>, x: Value) returns (j: nat)
    requires front <= s && x in multiset(s) - multiset(front)
    ensures |front| <= j < |s| && s[j] == x
  {
    var back := s[|front|..];
    assert s == front + back;
    assert multiset(s) - multiset(front) == multiset(back);
    var k :| 0 <= k < |back| && back[k] == x;
    j := |front| + k;
  }

  lemma FrontIsLeast(sorted: seq<Value>, n: nat, leq: (Value, Value) -> bool)
    requires Sorted(sorted, leq)
    ensures Least(FirstOf(sorted, n), sorted, n, leq)
  {
    var low := FirstOf(sorted, n);
    assert sorted == low + sorted[|low|..];
    forall x, i | x in multiset(sorted) - multiset(low) && 0 <= i < |low|
      ensures leq(low[i], x)
    {
      var j := SplitMultiset(sorted, low, x);
    }
  }

  lemma ReversedFrontIsGreatest(sorted: seq<Value>, n: nat, leq: (Value, Value) -> bool)
    requires Sorted(sorted, leq)
    ensures Greatest(FirstOf(Reverse(sorted), n), sorted, n, leq)
  {
    var down := Reverse(sorted);
    var top := FirstOf(down, n);
    ReverseMultiset(sorted);
    assert down == top + down[|top|..];
    forall i, j | 0 <= i < j < |down|
      ensures leq(down[j], down[i])
    {
      assert leq(sorted[|sorted| - 1 - j], sorted[|sorted| - 1 - i]);
    }
    forall x, i | x in multiset(sorted) - multiset(top) && 0 <= i < |top|
      ensures leq(x, top[i])
    {
      var j := SplitMultiset(down, top, x);
    }
  }

  /** Slicing the sorted list gives the least values, slicing its reverse the greatest. */
  lemma TopOfSorted(list: seq<Value>, n: nat, leq: (Value, Value) -> bool)
    requires TotalOrder(leq)
    ensures Least(FirstOf(Sort(list, leq), n), list, n, leq)
    ensures Greatest(FirstOf(Reverse(Sort(list, leq)), n), list, n, leq)
  {
    SortSorts(list, leq);
    FrontIsLeast(Sort(list, leq), n, leq);
    ReversedFrontIsGreatest(Sort(list, leq), n, leq);
  }

  lemma {:induction false} ReverseMultiset(s: seq<Value>)
    ensures multiset(Reverse(s)) == multiset(s)
  {
    if s == [] {
      assert Reverse(s) == [];
    } else {
      ReverseMultiset(s[1..]);
      assert Reverse(s) == Reverse(s[1..]) + [s[0]];
      assert s == [s[0]] + s[1..];
    }
  }

  /** Of what is selected from all values, it is what would be selected from the ranked ones. */
  lemma SelectedFromRanked(top: seq<Value>, values: seq<Value>, n: nat)
    requires multiset(top) <= multiset(values) && |top| == (if n < |values| then n else |values|)
    ensures multiset(top) <= multiset(Ranked(values)) <==> NoneNullish(top)
    ensures NoneNullish(top) ==> |top| == (if n < |Ranked(values)| then n else |Ranked(values)|)
    ensures multiset(Ranked(values)) <= multiset(values)
  {
    RankedCounts(values);
    var ranked := Ranked(values);
    if NoneNullish(top) {
      assert forall x :: multiset(top)[x] <= multiset(ranked)[x] by {
        assert forall x :: multiset(top)[x] > 0 ==> x in top;
      }
      Smaller(top, ranked);
    }
    if multiset(top) <= multiset(ranked) {
      assert forall v :: v in top ==> v in multiset(top);
    }
  }

  lemma Smaller(a: seq<Value>, b: seq<Value>)
    requires multiset(a) <= multiset(b)
    ensures |a| <= |b|
  {
    assert multiset(b) == multiset(a) + (multiset(b) - multiset(a));
    assert |multiset(a)| == |a| && |multiset(b)| == |b|;
  }

  lemma GreatestOfRanked(top: seq<Value>, values: seq<Value>, n: nat, leq: (Value, Value) -> bool)
    requires Greatest(top, values, n, leq)
    ensures Greatest(top, Ranked(values), n, leq) <==> NoneNullish(top)
  {
    SelectedFromRanked(top, values, n);
    if NoneNullish(top) {
      forall x, i | x in multiset(Ranked(values)) - multiset(top) && 0 <= i < |top|
        ensures leq(x, top[i])
      {
        assert x in multiset(values) - multiset(top);
      }
    }
  }

  lemma LeastOfRanked(low: seq<Value>, values: seq<Value>, n: nat, leq: (Value, Value) -> bool)
    requires Least(low, values, n, leq)
    ensures Least(low, Ranked(values), n, leq) <==> NoneNullish(low)
  {
    SelectedFromRanked(low, values, n);
    if NoneNullish(low) {
      forall x, i | x in multiset(Ranked(values)) - multiset(low) && 0 <= i < |low|
        ensures leq(low[i], x)
      {
        assert x in multiset(values) - multiset(low);
      }
    }
  }

  /** Each derivation of the collected list is the accumulator's meaning on it, exactly where no such value is handed out. */
  lemma DerivationMeans(acc: Accumulator, c: CompiledAccumulator, reg: Registry, folds: map<string, string>, plain: bool, w: World, values: seq<Value>)
    requires TotalOrder(w.leq) && values != []
    requires CompileAccumulator(acc, reg, folds, plain) == Success(c) && c.derive.Some?
    ensures Means(acc, w, folds, values, EvalDerivation(c.derive.value, w, Arr(values))) <==> Unaffected(acc, w, values)
  {
    if acc.MaxN? {
      GreatestMeans(acc, w, folds, values);
    } else if acc.MinN? {
      LeastMeans(acc, w, folds, values);
    } else if acc.FirstN? {
      FrontMeans(acc, w, folds, values);
    } else if acc.LastN? {
      BackMeans(acc, w, folds, values);
    }
  }

  lemma FrontMeans(acc: Accumulator, w: World, folds: map<string, string>, values: seq<Value>)
    requires acc.FirstN? && acc.n >= 1 && values != []
    ensures Means(acc, w, folds, values, EvalDerivation(SliceFront(acc.n), w, Arr(values))) <==> Unaffected(acc, w, values)
  {
    var front := FirstOf(values, acc.n);
    if Absent in front {
      var i :| 0 <= i < |front| && front[i] == Absent;
      assert front[i] != NullIfMissing(values[i]);
    }
  }

  lemma BackMeans(acc: Accumulator, w: World, folds: map<string, string>, values: seq<Value>)
    requires acc.LastN? && acc.n >= 1 && values != []
    ensures Means(acc, w, folds, values, EvalDerivation(SliceBack(acc.n), w, Arr(values))) <==> Unaffected(acc, w, values)
  {
    var back := LastOf(values, acc.n);
    if Absent in back {
      var i :| 0 <= i < |back| && back[i] == Absent;
      assert back[i] != NullIfMissing(values[|values| - |back| + i]);
    }
  }

  lemma GreatestMeans(acc: Accumulator, w: World, folds: map<string, string>, values: seq<Value>)
    requires acc.MaxN? && acc.n >= 1 && TotalOrder(w.leq) && values != []
    ensures Means(acc, w, folds, values, EvalDerivation(SortedDown(acc.n), w, Arr(values))) <==> Unaffected(acc, w, values)
  {
    TopOfSorted(values, acc.n, w.leq);
    GreatestOfRanked(FirstOf(Reverse(Sort(values, w.leq)), acc.n), values, acc.n, w.leq);
  }

  lemma LeastMeans(acc: Accumulator, w: World, folds: map<string, string>, values: seq<Value>)
    requires acc.MinN? && acc.n >= 1 && TotalOrder(w.leq) && values != []
    ensures Means(acc, w, folds, values, EvalDerivation(SortedUp(acc.n), w, Arr(values))) <==> Unaffected(acc, w, values)
  {
    TopOfSorted(values, acc.n, w.leq);
    LeastOfRanked(FirstOf(Sort(values, w.leq), acc.n), values, acc.n, w.leq);
  }

  /** Whether collecting is per row on this server; see `CollectIsPerRow`. */
  predicate CollectsPerRow(operand: Expr, term: Term, version: Version) {
    version.OnePerRow? || !ReadsRow(operand) || TermReads(term)
  }

  lemma CompiledAccumulatorMeans(acc: Accumulator, c: CompiledAccumulator, reg: Registry, folds: map<string, string>, plain: bool, w: World,
                                 rows: seq<Document>, values: seq<Value>, version: Version, term: Term)
    requires TotalOrder(w.leq) && rows != [] && !acc.Count?
    requires CompileAccumulator(acc, reg, folds, plain) == Success(c)
    requires Compile(acc.operand, reg, plain, map[]) == Success(term) && CollectsPerRow(acc.operand, term, version)
    requires OnRows(term, w, rows) == Some(values)
    ensures Means(acc, w, folds, values, EvalAccumulator(c, w, rows, version)) <==> Unaffected(acc, w, values)
  {
    CollectIsPerRow(acc.operand, reg, plain, w, rows, values, version);
    if c.derive.Some? {
      assert EvalProjection(c.sql, w, rows, version) == Some(Arr(values));
      DerivationMeans(acc, c, reg, folds, plain, w, values);
    } else if acc.Push? {
      assert EvalProjection(c.sql, w, rows, version) == Some(Arr(values));
      PresentIsAll(values);
    }
  }

  /** The settings of one group's documents: same servers, each row storing its document. */
  ghost predicate IsGroup(group: seq<Setting>, w: World, reg: Registry, plain: bool) {
    group != [] && forall i :: 0 <= i < |group| ==> Valid(group[i]) && group[i].w == w && group[i].reg == reg && group[i].plain == plain
  }

  function Rows(group: seq<Setting>): seq<Document> {
    seq(|group|, i requires 0 <= i < |group| => group[i].row)
  }

  /**
   * Every accumulator the compiler accepts answers with its meaning on the list of
   * values its operand takes on the group's documents, on either kind of server,
   * exactly where none of the values it hands out is missing (nor null, of `$maxN` and
   * `$minN`).
   */
  lemma AccumulatorCorrect(acc: Accumulator, folds: map<string, string>, group: seq<Setting>, w: World, reg: Registry, plain: bool,
                           values: seq<Value>, version: Version)
    requires IsGroup(group, w, reg, plain) && |values| == |group|
    requires CompileAccumulator(acc, reg, folds, plain).Success?
    requires !acc.Count? ==> Uncaptured(acc.operand, plain, map[]) && WellFormed(acc.operand, reg, {})
    requires !acc.Count? ==> forall i :: 0 <= i < |group| ==> Complete(acc.operand, w, group[i].doc, map[])
    requires !acc.Count? ==> forall i :: 0 <= i < |group| ==> Eval(acc.operand, w, Converted, group[i].doc, map[]) == Some(values[i])
    requires !acc.Count? ==> forall term :: Compile(acc.operand, reg, plain, map[]) == Success(term) ==> CollectsPerRow(acc.operand, term, version)
    ensures Means(acc, w, folds, values, EvalAccumulator(CompileAccumulator(acc, reg, folds, plain).value, w, Rows(group), version))
       <==> Unaffected(acc, w, values)
  {
    if !acc.Count? {
      CompilerCorrectness(acc.operand, group[0]);
      var term := Compile(acc.operand, reg, plain, map[]).value;
      var rows := Rows(group);
      forall i | 0 <= i < |rows|
        ensures EvalTerm(term, w, rows[i], map[]) == Some(values[i])
      {
        CompilerCorrectness(acc.operand, group[i]);
      }
      OnRowsAt(term, w, rows);
      assert OnRows(term, w, rows).value == values;
      CompiledAccumulatorMeans(acc, CompileAccumulator(acc, reg, folds, plain).value, reg, folds, plain, w, rows, values, version, term);
    }
  }

  // The identity as an operand.

  /** Over stored rows `$_id` collects record ids, of which none is a document's `_id`. */
  lemma IdentityCollectsRecords(group: seq<Setting>, w: World, reg: Registry, version: Version)
    requires IsGroup(group, w, reg, false)
    ensures EvalProjection(Collect(Field(["_id"]), Idiom(["id"])), w, Rows(group), version)
         == Some(Arr(seq(|group|, i requires 0 <= i < |group| => RecordOf(Identity(group[i])))))
    ensures forall i :: 0 <= i < |group| ==> RecordOf(Identity(group[i])) != Identity(group[i])
    ensures Compile(Field(["_id"]), reg, false, map[]) == Success(Idiom(["id"]))
  {
    var rows := Rows(group);
    forall i | 0 <= i < |rows|
      ensures EvalTerm(Idiom(["id"]), w, rows[i], map[]) == Some(RecordOf(Identity(group[i])))
    {
      assert rows[i] == group[i].row && Stores(group[i]);
    }
    OnRowsAt(Idiom(["id"]), w, rows);
    assert OnRows(Idiom(["id"]), w, rows).value == seq(|group|, i requires 0 <= i < |group| => RecordOf(Identity(group[i])));
  }

  /** The `_id` of a setting's document. */
  function Identity(s: Setting): Value {
    if "_id" in s.doc then s.doc["_id"] else Absent
  }
}
