/**
 * Why the compiler refuses an expression: the reason it gives is there in the expression.
 */
module CompileErrors {
  import opened Values
  import opened ExpressionSource
  import opened SurrealTerms
  import opened ExpressionCompiler

  /** Everything wrong with an expression, with `scope` the names bound around it. */
  function Faults(e: Expr, reg: Registry, scope: set<string>): set<CompileError>
    decreases e, 0
  {
    match e
    case Field(_) => {}
    case Variable(name) => if name in scope || name == "NOW" then {} else {UnknownVariable(name)}
    case Literal(_) => {}
    case Strict(op, args) =>
      (if op.Call? && op.name !in reg then {UnknownOperator(op.name)} else if !Accepts(reg, op, |args|) then {WrongOperandCount} else {})
      + FaultsAll(args, reg, scope)
    case Cond(test, yes, no) => Faults(test, reg, scope) + Faults(yes, reg, scope) + Faults(no, reg, scope)
    case IfNull(args) => (if |args| < 2 then {WrongOperandCount} else {}) + FaultsAll(args, reg, scope)
    case Switch(branches, otherwise) =>
      (if branches == [] then {NoBranches} else {}) + FaultsBranches(branches, reg, scope)
      + (if otherwise.Some? then Faults(otherwise.value, reg, scope) else {})
    case MapOver(input, alias, body) => Faults(input, reg, scope) + Faults(body, reg, scope + {alias})
    case FilterOver(input, alias, body, limit) =>
      Faults(input, reg, scope) + Faults(body, reg, scope + {alias}) + (if limit.Some? then Faults(limit.value, reg, scope) else {})
    case Reduce(input, initial, body) => Faults(input, reg, scope) + Faults(initial, reg, scope) + Faults(body, reg, scope + {"value", "this"})
    case Let(vars, body) => FaultsBindings(vars, reg, scope) + Faults(body, reg, scope + Introduced(vars))
    case Document(fields) => FaultsBindings(fields, reg, scope)
  }

  function FaultsAll(es: seq<Expr>, reg: Registry, scope: set<string>): set<CompileError>
    decreases es, 0
  {
    if es == [] then {} else Faults(es[0], reg, scope) + FaultsAll(es[1..], reg, scope)
  }

  function FaultsBindings(bs: seq<Binding>, reg: Registry, scope: set<string>): set<CompileError>
    decreases bs, 0
  {
    if bs == [] then {} else Faults(bs[0].value, reg, scope) + FaultsBindings(bs[1..], reg, scope)
  }

  function FaultsBranches(bs: seq<Branch>, reg: Registry, scope: set<string>): set<CompileError>
    decreases bs, 0
  {
    if bs == [] then {} else FaultsBranch(bs[0], reg, scope) + FaultsBranches(bs[1..], reg, scope)
  }

  function FaultsBranch(b: Branch, reg: Registry, scope: set<string>): set<CompileError>
    decreases b, 0
  {
    Faults(b.test, reg, scope) + Faults(b.outcome, reg, scope)
  }

  /** A refusal names a fault of the expression. */
  predicate Blames<T>(compiled: Result<T, CompileError>, faults: set<CompileError>) {
    compiled.Failure? ==> compiled.error in faults
  }

  lemma {:induction false} RefusalHasReason(e: Expr, reg: Registry, plain: bool, vars: Scope)
    ensures Blames(Compile(e, reg, plain, vars), Faults(e, reg, vars.Keys))
    decreases e, 1
  {
    match e
    case Field(_) =>
    case Variable(_) =>
    case Literal(_) =>
    case Strict(_, args) => AllHaveReason(args, reg, plain, vars);
    case Cond(test, yes, no) =>
      RefusalHasReason(test, reg, plain, vars);
      RefusalHasReason(yes, reg, plain, vars);
      RefusalHasReason(no, reg, plain, vars);
    case IfNull(args) => AllHaveReason(args, reg, plain, vars);
    case Switch(_, _) => SwitchHasReason(e, reg, plain, vars);
    case MapOver(input, alias, body) =>
      RefusalHasReason(input, reg, plain, vars);
      BodyHasReason(body, alias, reg, plain, vars);
    case FilterOver(_, _, _, _) => FilterHasReason(e, reg, plain, vars);
    case Reduce(_, _, _) => ReduceHasReason(e, reg, plain, vars);
    case Let(_, _) => LetHasReason(e, reg, plain, vars);
    case Document(fields) => BindingsHaveReason(fields, reg, plain, vars);
  }

  lemma {:induction false} BodyHasReason(body: Expr, alias: string, reg: Registry, plain: bool, vars: Scope)
    ensures Blames(Compile(body, reg, plain, vars[alias := Param(|vars|)]), Faults(body, reg, vars.Keys + {alias}))
    decreases body, 2
  {
    assert vars[alias := Param(|vars|)].Keys == vars.Keys + {alias};
    RefusalHasReason(body, reg, plain, vars[alias := Param(|vars|)]);
  }

  lemma {:induction false} FilterHasReason(e: Expr, reg: Registry, plain: bool, vars: Scope)
    requires e.FilterOver?
    ensures Blames(Compile(e, reg, plain, vars), Faults(e, reg, vars.Keys))
    decreases e, 0
  {
    RefusalHasReason(e.input, reg, plain, vars);
    BodyHasReason(e.body, e.alias, reg, plain, vars);
    if e.limit.Some? {
      RefusalHasReason(e.limit.value, reg, plain, vars);
      LimitCombines(e, reg, plain, vars);
    }
  }

  lemma LimitCombines(e: Expr, reg: Registry, plain: bool, vars: Scope)
    requires e.FilterOver? && e.limit.Some? && Blames(Compile(e.input, reg, plain, vars), Faults(e.input, reg, vars.Keys))
    requires Blames(Compile(e.body, reg, plain, vars[e.alias := Param(|vars|)]), Faults(e.body, reg, vars.Keys + {e.alias}))
    requires Blames(Compile(e.limit.value, reg, plain, vars), Faults(e.limit.value, reg, vars.Keys))
    ensures Blames(Compile(e, reg, plain, vars), Faults(e, reg, vars.Keys))
  {
  }

  lemma {:induction false} ReduceHasReason(e: Expr, reg: Registry, plain: bool, vars: Scope)
    requires e.Reduce?
    ensures Blames(Compile(e, reg, plain, vars), Faults(e, reg, vars.Keys))
    decreases e, 0
  {
    RefusalHasReason(e.initial, reg, plain, vars);
    RefusalHasReason(e.input, reg, plain, vars);
    BodyOfTwoHasReason(e.body, "value", "this", reg, plain, vars);
  }

  lemma {:induction false} BodyOfTwoHasReason(body: Expr, a: string, b: string, reg: Registry, plain: bool, vars: Scope)
    ensures Blames(Compile(body, reg, plain, vars[a := Param(|vars|)][b := Param(|vars| + 1)]), Faults(body, reg, vars.Keys + {a, b}))
    decreases body, 2
  {
    var inner := vars[a := Param(|vars|)][b := Param(|vars| + 1)];
    assert inner.Keys == vars.Keys + {a, b};
    RefusalHasReason(body, reg, plain, inner);
  }

  lemma {:induction false} LetHasReason(e: Expr, reg: Registry, plain: bool, vars: Scope)
    requires e.Let?
    ensures Blames(Compile(e, reg, plain, vars), Faults(e, reg, vars.Keys))
    decreases e, 0
  {
    BindingsHaveReason(e.vars, reg, plain, vars);
    var terms := CompileBindings(e.vars, reg, plain, vars);
    if terms.Success? {
      BindAllKeys(Names(e.vars), terms.value, vars);
      RefusalHasReason(e.body, reg, plain, BindAll(Names(e.vars), terms.value, vars));
    }
  }

  lemma {:induction false} SwitchHasReason(e: Expr, reg: Registry, plain: bool, vars: Scope)
    requires e.Switch?
    ensures Blames(Compile(e, reg, plain, vars), Faults(e, reg, vars.Keys))
    decreases e, 0
  {
    if e.otherwise.Some? {
      RefusalHasReason(e.otherwise.value, reg, plain, vars);
      var fallback := Compile(e.otherwise.value, reg, plain, vars);
      if fallback.Success? {
        BranchesHaveReason(e.branches, fallback.value, reg, plain, vars);
      }
    } else {
      BranchesHaveReason(e.branches, Bound(Absent), reg, plain, vars);
    }
  }

  lemma {:induction false} AllHaveReason(es: seq<Expr>, reg: Registry, plain: bool, vars: Scope)
    ensures Blames(CompileAll(es, reg, plain, vars), FaultsAll(es, reg, vars.Keys))
    decreases es, 0
  {
    if es != [] {
      RefusalHasReason(es[0], reg, plain, vars);
      AllHaveReason(es[1..], reg, plain, vars);
    }
  }

  lemma {:induction false} BindingsHaveReason(bs: seq<Binding>, reg: Registry, plain: bool, vars: Scope)
    ensures Blames(CompileBindings(bs, reg, plain, vars), FaultsBindings(bs, reg, vars.Keys))
    decreases bs, 0
  {
    if bs != [] {
      RefusalHasReason(bs[0].value, reg, plain, vars);
      BindingsHaveReason(bs[1..], reg, plain, vars);
    }
  }

  lemma {:induction false} BranchesHaveReason(bs: seq<Branch>, fallback: Term, reg: Registry, plain: bool, vars: Scope)
    ensures Blames(CompileSwitch(bs, fallback, reg, plain, vars), FaultsBranches(bs, reg, vars.Keys))
    decreases bs, 0
  {
    if bs != [] {
      BranchesHaveReason(bs[1..], fallback, reg, plain, vars);
      var rest := CompileSwitch(bs[1..], fallback, reg, plain, vars);
      if rest.Success? {
        BranchHasReason(bs[0], rest.value, reg, plain, vars);
      }
    }
  }

  lemma {:induction false} BranchHasReason(b: Branch, fallback: Term, reg: Registry, plain: bool, vars: Scope)
    ensures Blames(CompileBranch(b, fallback, reg, plain, vars), FaultsBranch(b, reg, vars.Keys))
    decreases b, 0
  {
    RefusalHasReason(b.test, reg, plain, vars);
    RefusalHasReason(b.outcome, reg, plain, vars);
  }
}
