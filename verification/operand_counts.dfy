/**
 * Which expressions are refused before they run: an operator is accepted exactly for
 * the operand counts MongoDB gives it a meaning for, an empty list aside, and so is a
 * whole expression all of whose parts are evaluated.
 */
module OperandCounts {
  import opened Values
  import opened ExpressionSource
  import opened ExpressionCompiler

  /** An operator that takes any number of operands, none of them included, in MongoDB. */
  predicate TakesAny(op: Operator) {
    op.Add? || op.Multiply? || op.SetUnion? || op.SetIntersection? || op.MergeObjects?
  }

  /** `n` operands for which the operator has a meaning, whatever the server around it. */
  function Operands(op: Operator, n: nat): (vs: seq<Value>)
    ensures |vs| == n
  {
    if op.Add? || op.Multiply? || op.Divide? then seq(n, _ => Int(1))
    else if op.MergeObjects? then seq(n, _ => Obj(map[]))
    else seq(n, _ => Arr([]))
  }

  /**
   * MongoDB gives an operator a meaning for some operands of a count exactly when the
   * compiler accepts that count, and for none where an operator that may have any
   * number of operands has none, which the compiler refuses.
   */
  lemma AcceptsExactly(reg: Registry, op: Operator, n: nat, w: World)
    requires !op.Call?
    ensures (exists vs: seq<Value> :: |vs| == n && Meaning(w, op, vs).Some?) <==> Accepts(reg, op, n) || (n == 0 && TakesAny(op))
    ensures n == 0 && TakesAny(op) ==> !Accepts(reg, op, n)
  {
    if Accepts(reg, op, n) || (n == 0 && TakesAny(op)) {
      OperandsMean(reg, op, n, w);
    }
  }

  lemma OperandsMean(reg: Registry, op: Operator, n: nat, w: World)
    requires !op.Call? && (Accepts(reg, op, n) || (n == 0 && TakesAny(op)))
    ensures Meaning(w, op, Operands(op, n)).Some?
  {
  }

  // Whole expressions.

  /** The operator is in the table, for that many operands. */
  predicate InTable(reg: Registry, name: string, count: nat) {
    name in reg && (reg[name].arity == None || reg[name].arity == Some(count))
  }

  /**
   * Every part of the expression is evaluated and has a value - either side of a
   * condition, every branch, a closure's body for the first element - and its one-call
   * operators are in the table.
   */
  predicate Evaluated(e: Expr, reg: Registry, w: World, doc: map<string, Value>, env: map<string, Value>)
    decreases e, 1
  {
    Eval(e, w, Converted, doc, env).Some? &&
    match e
    case Field(_) => true
    case Variable(_) => true
    case Literal(_) => true
    case Strict(op, args) => (op.Call? ==> InTable(reg, op.name, |args|)) && EvaluatedAll(args, reg, w, doc, env)
    case Cond(test, yes, no) =>
      Evaluated(test, reg, w, doc, env) && Evaluated(yes, reg, w, doc, env) && Evaluated(no, reg, w, doc, env)
    case IfNull(args) => EvaluatedAll(args, reg, w, doc, env)
    case Switch(branches, otherwise) =>
      EvaluatedBranches(branches, reg, w, doc, env) && (otherwise.Some? ==> Evaluated(otherwise.value, reg, w, doc, env))
    case MapOver(input, alias, body) =>
      Evaluated(input, reg, w, doc, env) && EvaluatedFirst(body, alias, Eval(input, w, Converted, doc, env), reg, w, doc, env)
    case FilterOver(input, alias, body, limit) =>
      Evaluated(input, reg, w, doc, env) && EvaluatedFirst(body, alias, Eval(input, w, Converted, doc, env), reg, w, doc, env)
      && (limit.Some? ==> Evaluated(limit.value, reg, w, doc, env))
    case Reduce(input, initial, body) =>
      Evaluated(input, reg, w, doc, env) && Evaluated(initial, reg, w, doc, env)
      && EvaluatedStep(body, Eval(initial, w, Converted, doc, env), Eval(input, w, Converted, doc, env), reg, w, doc, env)
    case Let(vars, body) =>
      EvaluatedBindings(vars, reg, w, doc, env)
      && EvaluatedUnder(body, Names(vars), EvalBindings(vars, w, Converted, doc, env), reg, w, doc, env)
    case Document(fields) => EvaluatedBindings(fields, reg, w, doc, env)
  }

  predicate EvaluatedFirst(body: Expr, alias: string, source: Option<Value>, reg: Registry, w: World, doc: map<string, Value>, env: map<string, Value>)
    decreases body, 2
  {
    source.Some? && source.value.Arr? && source.value.items != []
    && Evaluated(body, reg, w, doc, env[alias := source.value.items[0]])
  }

  predicate EvaluatedStep(body: Expr, seed: Option<Value>, source: Option<Value>, reg: Registry, w: World, doc: map<string, Value>, env: map<string, Value>)
    decreases body, 2
  {
    seed.Some? && source.Some? && source.value.Arr? && source.value.items != []
    && Evaluated(body, reg, w, doc, env["value" := seed.value]["this" := source.value.items[0]])
  }

  predicate EvaluatedUnder(body: Expr, names: seq<string>, values: Option<seq<Value>>, reg: Registry, w: World, doc: map<string, Value>, env: map<string, Value>)
    decreases body, 2
  {
    values.Some? && |values.value| == |names| && Evaluated(body, reg, w, doc, BindAll(names, values.value, env))
  }

  predicate EvaluatedAll(es: seq<Expr>, reg: Registry, w: World, doc: map<string, Value>, env: map<string, Value>)
    decreases es, 0
  {
    es == [] || (Evaluated(es[0], reg, w, doc, env) && EvaluatedAll(es[1..], reg, w, doc, env))
  }

  predicate EvaluatedBindings(bs: seq<Binding>, reg: Registry, w: World, doc: map<string, Value>, env: map<string, Value>)
    decreases bs, 0
  {
    bs == [] || (Evaluated(bs[0].value, reg, w, doc, env) && EvaluatedBindings(bs[1..], reg, w, doc, env))
  }

  predicate EvaluatedBranches(bs: seq<Branch>, reg: Registry, w: World, doc: map<string, Value>, env: map<string, Value>)
    decreases bs, 0
  {
    bs == [] || (EvaluatedBranch(bs[0], reg, w, doc, env) && EvaluatedBranches(bs[1..], reg, w, doc, env))
  }

  predicate EvaluatedBranch(b: Branch, reg: Registry, w: World, doc: map<string, Value>, env: map<string, Value>)
    decreases b, 0
  {
    Evaluated(b.test, reg, w, doc, env) && Evaluated(b.outcome, reg, w, doc, env)
  }

  /** No operator that takes any number of operands is given none. */
  predicate Fed(e: Expr)
    decreases e
  {
    match e
    case Field(_) => true
    case Variable(_) => true
    case Literal(_) => true
    case Strict(op, args) => (TakesAny(op) ==> args != []) && FedAll(args)
    case Cond(test, yes, no) => Fed(test) && Fed(yes) && Fed(no)
    case IfNull(args) => FedAll(args)
    case Switch(branches, otherwise) => FedBranches(branches) && (otherwise.Some? ==> Fed(otherwise.value))
    case MapOver(input, _, body) => Fed(input) && Fed(body)
    case FilterOver(input, _, body, limit) => Fed(input) && Fed(body) && (limit.Some? ==> Fed(limit.value))
    case Reduce(input, initial, body) => Fed(input) && Fed(initial) && Fed(body)
    case Let(vars, body) => FedBindings(vars) && Fed(body)
    case Document(fields) => FedBindings(fields)
  }

  predicate FedAll(es: seq<Expr>) {
    es == [] || (Fed(es[0]) && FedAll(es[1..]))
  }

  predicate FedBindings(bs: seq<Binding>) {
    bs == [] || (Fed(bs[0].value) && FedBindings(bs[1..]))
  }

  predicate FedBranches(bs: seq<Branch>) {
    bs == [] || (FedBranch(bs[0]) && FedBranches(bs[1..]))
  }

  predicate FedBranch(b: Branch) {
    Fed(b.test) && Fed(b.outcome)
  }

  /** An expression all of whose parts MongoDB evaluates is well formed exactly when every operator is fed. */
  lemma {:induction false} EvaluatedIsWellFormed(e: Expr, reg: Registry, w: World, doc: map<string, Value>, env: map<string, Value>)
    requires Evaluated(e, reg, w, doc, env)
    ensures WellFormed(e, reg, env.Keys) <==> Fed(e)
    decreases e, 1
  {
    match e
    case Field(_) =>
    case Variable(_) =>
    case Literal(_) =>
    case Strict(_, _) => StrictIsWellFormed(e, reg, w, doc, env);
    case Cond(test, yes, no) =>
      EvaluatedIsWellFormed(test, reg, w, doc, env);
      EvaluatedIsWellFormed(yes, reg, w, doc, env);
      EvaluatedIsWellFormed(no, reg, w, doc, env);
    case IfNull(args) => AllAreWellFormed(args, reg, w, doc, env);
    case Switch(branches, otherwise) =>
      BranchesAreWellFormed(branches, reg, w, doc, env);
      if otherwise.Some? {
        EvaluatedIsWellFormed(otherwise.value, reg, w, doc, env);
      }
    case MapOver(input, alias, body) =>
      EvaluatedIsWellFormed(input, reg, w, doc, env);
      FirstIsWellFormed(body, alias, Eval(input, w, Converted, doc, env), reg, w, doc, env);
    case FilterOver(input, alias, body, limit) =>
      EvaluatedIsWellFormed(input, reg, w, doc, env);
      FirstIsWellFormed(body, alias, Eval(input, w, Converted, doc, env), reg, w, doc, env);
      if limit.Some? {
        EvaluatedIsWellFormed(limit.value, reg, w, doc, env);
      }
    case Reduce(input, initial, body) =>
      EvaluatedIsWellFormed(input, reg, w, doc, env);
      EvaluatedIsWellFormed(initial, reg, w, doc, env);
      StepIsWellFormed(body, Eval(initial, w, Converted, doc, env), Eval(input, w, Converted, doc, env), reg, w, doc, env);
    case Let(vars, body) =>
      BindingsAreWellFormed(vars, reg, w, doc, env);
      LetIsWellFormed(body, vars, EvalBindings(vars, w, Converted, doc, env).value, reg, w, doc, env);
    case Document(fields) => BindingsAreWellFormed(fields, reg, w, doc, env);
  }

  lemma {:induction false} StrictIsWellFormed(e: Expr, reg: Registry, w: World, doc: map<string, Value>, env: map<string, Value>)
    requires e.Strict? && Evaluated(e, reg, w, doc, env)
    ensures WellFormed(e, reg, env.Keys) <==> Fed(e)
    decreases e, 0
  {
    AllAreWellFormed(e.args, reg, w, doc, env);
    var values := StrictMeaning(e, w, Converted, doc, env);
    if !e.op.Call? {
      AcceptsExactly(reg, e.op, |values|, w);
    }
  }

  lemma {:induction false} FirstIsWellFormed(body: Expr, alias: string, source: Option<Value>, reg: Registry, w: World, doc: map<string, Value>, env: map<string, Value>)
    requires EvaluatedFirst(body, alias, source, reg, w, doc, env)
    ensures WellFormed(body, reg, env.Keys + {alias}) <==> Fed(body)
    decreases body, 2
  {
    var inner := env[alias := source.value.items[0]];
    assert inner.Keys == env.Keys + {alias};
    EvaluatedIsWellFormed(body, reg, w, doc, inner);
  }

  lemma {:induction false} StepIsWellFormed(body: Expr, seed: Option<Value>, source: Option<Value>, reg: Registry, w: World, doc: map<string, Value>, env: map<string, Value>)
    requires EvaluatedStep(body, seed, source, reg, w, doc, env)
    ensures WellFormed(body, reg, env.Keys + {"value", "this"}) <==> Fed(body)
    decreases body, 2
  {
    var inner := env["value" := seed.value]["this" := source.value.items[0]];
    assert inner.Keys == env.Keys + {"value", "this"};
    EvaluatedIsWellFormed(body, reg, w, doc, inner);
  }

  lemma {:induction false} LetIsWellFormed(body: Expr, vars: seq<Binding>, values: seq<Value>, reg: Registry, w: World, doc: map<string, Value>, env: map<string, Value>)
    requires EvaluatedUnder(body, Names(vars), Some(values), reg, w, doc, env)
    ensures WellFormed(body, reg, env.Keys + Introduced(vars)) <==> Fed(body)
    decreases body, 2
  {
    BindAllKeys(Names(vars), values, env);
    EvaluatedIsWellFormed(body, reg, w, doc, BindAll(Names(vars), values, env));
  }

  lemma {:induction false} AllAreWellFormed(es: seq<Expr>, reg: Registry, w: World, doc: map<string, Value>, env: map<string, Value>)
    requires EvaluatedAll(es, reg, w, doc, env)
    ensures WellFormedAll(es, reg, env.Keys) <==> FedAll(es)
    decreases es, 0
  {
    if es != [] {
      EvaluatedIsWellFormed(es[0], reg, w, doc, env);
      AllAreWellFormed(es[1..], reg, w, doc, env);
    }
  }

  lemma {:induction false} BindingsAreWellFormed(bs: seq<Binding>, reg: Registry, w: World, doc: map<string, Value>, env: map<string, Value>)
    requires EvaluatedBindings(bs, reg, w, doc, env)
    ensures WellFormedBindings(bs, reg, env.Keys) <==> FedBindings(bs)
    decreases bs, 0
  {
    if bs != [] {
      EvaluatedIsWellFormed(bs[0].value, reg, w, doc, env);
      BindingsAreWellFormed(bs[1..], reg, w, doc, env);
    }
  }

  lemma {:induction false} BranchesAreWellFormed(bs: seq<Branch>, reg: Registry, w: World, doc: map<string, Value>, env: map<string, Value>)
    requires EvaluatedBranches(bs, reg, w, doc, env)
    ensures WellFormedBranches(bs, reg, env.Keys) <==> FedBranches(bs)
    decreases bs, 0
  {
    if bs != [] {
      BranchIsWellFormed(bs[0], reg, w, doc, env);
      BranchesAreWellFormed(bs[1..], reg, w, doc, env);
    }
  }

  lemma {:induction false} BranchIsWellFormed(b: Branch, reg: Registry, w: World, doc: map<string, Value>, env: map<string, Value>)
    requires EvaluatedBranch(b, reg, w, doc, env)
    ensures WellFormedBranch(b, reg, env.Keys) <==> FedBranch(b)
    decreases b, 0
  {
    EvaluatedIsWellFormed(b.test, reg, w, doc, env);
    EvaluatedIsWellFormed(b.outcome, reg, w, doc, env);
  }

  /**
   * So the compiler refuses no expression MongoDB evaluates in every part, except where
   * an operator that takes any number of operands is given none.
   */
  lemma EvaluatedCompiles(e: Expr, reg: Registry, plain: bool, w: World, doc: map<string, Value>)
    requires Evaluated(e, reg, w, doc, map[])
    ensures Compile(e, reg, plain, map[]).Success? <==> Fed(e)
  {
    var scope: Scope, env: map<string, Value> := map[], map[];
    assert scope.Keys == {} && env.Keys == {};
    CompilesExactlyWellFormed(e, reg, plain, scope);
    EvaluatedIsWellFormed(e, reg, w, doc, env);
  }
}
