/**
 * The compiler from aggregation expressions to SurrealQL terms: scoping by a map
 * from variable names to the terms they stand for, closure parameters numbered by
 * the size of that map, and `$let` by substitution.
 */
module ExpressionCompiler {
  import opened Values
  import opened ExpressionSource
  import opened SurrealTerms

  /** A one-call operator: the function it becomes, and how many operands it takes. */
  datatype Signature = Signature(target: string, arity: Option<nat>)

  type Registry = map<string, Signature>

  type Scope = map<string, Term>

  datatype CompileError =
    | UnknownOperator(name: string)
    | UnknownVariable(name: string)
    | WrongOperandCount
    | NoBranches

  /** A left fold of a two-operand function over one or more operands. */
  function Chain(fn: Fn, args: seq<Term>): Term
    requires |args| > 0
  {
    if |args| == 1 then args[0] else Apply(fn, [Chain(fn, args[..|args| - 1]), args[|args| - 1]])
  }

  /** `a ?? (b ?? (c ...))`. */
  function CoalesceAll(args: seq<Term>): Term
    requires |args| > 0
  {
    if |args| == 1 then args[0] else Coalesce(args[0], CoalesceAll(args[1..]))
  }

  function CanonicalSets(args: seq<Term>): seq<Term> {
    seq(|args|, i requires 0 <= i < |args| => Apply(SortOf, [Apply(DistinctOf, [args[i]])]))
  }

  function AdjacentPairs(sets: seq<Term>): seq<Term>
    requires |sets| > 0
  {
    seq(|sets| - 1, i requires 0 <= i < |sets| - 1 => Apply(Equal, [sets[i], sets[i + 1]]))
  }

  /** How many operands a strict operator accepts. */
  predicate Accepts(reg: Registry, op: Operator, count: nat) {
    match op
    case Call(name) => name in reg && (reg[name].arity.Some? ==> reg[name].arity.value == count)
    case Add => count > 0
    case Multiply => count > 0
    case Divide => count == 2
    case SetUnion => count > 0
    case SetIntersection => count > 0
    case SetDifference => count == 2
    case SetEquals => count > 1
    case SetIsSubset => count == 2
    case MergeObjects => count > 0
    case MakeArray => true
  }

  /** The term a strict operator builds from its compiled operands. */
  function Build(reg: Registry, op: Operator, args: seq<Term>): Term
    requires Accepts(reg, op, |args|)
  {
    match op
    case Call(name) => Apply(Named(reg[name].target), args)
    case Add => Chain(Plus, args)
    case Multiply => Chain(Times, args)
    case Divide => Apply(Over, [Apply(CastFloat, [args[0]]), args[1]])
    case SetUnion => if |args| == 1 then Apply(DistinctOf, args) else Chain(Union, args)
    case SetIntersection => if |args| == 1 then Apply(DistinctOf, args) else Chain(Intersect, args)
    case SetDifference => Apply(DistinctOf, [Apply(Complement, args)])
    case SetEquals => Chain(And, AdjacentPairs(CanonicalSets(args)))
    case SetIsSubset => Apply(ContainsAll, [args[1], args[0]])
    case MergeObjects => Chain(Extend, args)
    case MakeArray => Apply(ArrayLiteral, args)
  }

  /** `_id` is the stored column `id` until a stage has reshaped the rows. */
  function ColumnPath(path: seq<string>, plain: bool): seq<string> {
    if path == ["_id"] && !plain then ["id"] else path
  }

  /** A path that does not name, or lead through, the identity of rows not yet reshaped. */
  predicate KeepsIdentity(path: seq<string>, plain: bool) {
    plain || (path != ["_id"] && (path == [] || path[0] != "id"))
  }

  function Compile(e: Expr, reg: Registry, plain: bool, vars: Scope): Result<Term, CompileError>
    decreases e, 0
  {
    match e
    case Field(path) => Success(Idiom(ColumnPath(path, plain)))
    case Variable(name) =>
      if name in vars then Success(vars[name])
      else if name == "NOW" then Success(TimeNow)
      else Failure(UnknownVariable(name))
    case Literal(value) => Success(Bound(value))
    case Strict(op, args) =>
      if op.Call? && op.name !in reg then Failure(UnknownOperator(op.name)) else
      var terms :- CompileAll(args, reg, plain, vars);
      if Accepts(reg, op, |terms|) then Success(Build(reg, op, terms)) else Failure(WrongOperandCount)
    case Cond(test, yes, no) =>
      var t :- Compile(test, reg, plain, vars);
      var y :- Compile(yes, reg, plain, vars);
      var n :- Compile(no, reg, plain, vars);
      Success(If(t, y, n))
    case IfNull(args) =>
      var terms :- CompileAll(args, reg, plain, vars);
      if |terms| < 2 then Failure(WrongOperandCount) else Success(CoalesceAll(terms))
    case Switch(branches, otherwise) =>
      if branches == [] then Failure(NoBranches) else
      var fallback :- if otherwise.None? then Success(Bound(Absent)) else Compile(otherwise.value, reg, plain, vars);
      CompileSwitch(branches, fallback, reg, plain, vars)
    case MapOver(input, alias, body) =>
      var source :- Compile(input, reg, plain, vars);
      var closure :- Compile(body, reg, plain, vars[alias := Param(|vars|)]);
      Success(ArrayMap(source, |vars|, closure))
    case FilterOver(input, alias, body, limit) =>
      var source :- Compile(input, reg, plain, vars);
      var closure :- Compile(body, reg, plain, vars[alias := Param(|vars|)]);
      var filtered := ArrayFilter(source, |vars|, closure);
      if limit.None? then Success(filtered) else
      var n :- Compile(limit.value, reg, plain, vars);
      Success(Apply(Slice, [filtered, Bound(Int(0)), n]))
    case Reduce(input, initial, body) =>
      var seed :- Compile(initial, reg, plain, vars);
      var source :- Compile(input, reg, plain, vars);
      var inner := vars["value" := Param(|vars|)]["this" := Param(|vars| + 1)];
      var closure :- Compile(body, reg, plain, inner);
      Success(ArrayReduce(Apply(Concat, [Apply(ArrayLiteral, [seed]), source]), |vars|, |vars| + 1, closure))
    case Let(bindings, body) =>
      var terms :- CompileBindings(bindings, reg, plain, vars);
      Compile(body, reg, plain, BindAll(Names(bindings), terms, vars))
    case Document(fields) =>
      var terms :- CompileBindings(fields, reg, plain, vars);
      Success(Apply(ObjectLiteral(Names(fields)), terms))
  }

  function CompileAll(es: seq<Expr>, reg: Registry, plain: bool, vars: Scope): (r: Result<seq<Term>, CompileError>)
    ensures r.Success? ==> |r.value| == |es|
    decreases es, 0
  {
    if es == [] then Success([]) else
    var head :- Compile(es[0], reg, plain, vars);
    var tail :- CompileAll(es[1..], reg, plain, vars);
    Success([head] + tail)
  }

  function CompileBindings(bs: seq<Binding>, reg: Registry, plain: bool, vars: Scope): (r: Result<seq<Term>, CompileError>)
    ensures r.Success? ==> |r.value| == |bs|
    decreases bs, 0
  {
    if bs == [] then Success([]) else
    var head :- Compile(bs[0].value, reg, plain, vars);
    var tail :- CompileBindings(bs[1..], reg, plain, vars);
    Success([head] + tail)
  }

  /** A right fold: the last branch is compiled first and wraps the fallback. */
  function CompileSwitch(branches: seq<Branch>, fallback: Term, reg: Registry, plain: bool, vars: Scope): Result<Term, CompileError>
    decreases branches, 0
  {
    if branches == [] then Success(fallback) else
    var rest :- CompileSwitch(branches[1..], fallback, reg, plain, vars);
    CompileBranch(branches[0], rest, reg, plain, vars)
  }

  function CompileBranch(branch: Branch, fallback: Term, reg: Registry, plain: bool, vars: Scope): Result<Term, CompileError>
    decreases branch, 0
  {
    var test :- Compile(branch.test, reg, plain, vars);
    var outcome :- Compile(branch.outcome, reg, plain, vars);
    Success(If(test, outcome, fallback))
  }

  // Which expressions are accepted, and the scoping discipline.

  /** Every operator is known and fed the operands it takes, and every variable is in scope. */
  predicate WellFormed(e: Expr, reg: Registry, scope: set<string>)
    decreases e, 0
  {
    match e
    case Field(_) => true
    case Variable(name) => name in scope || name == "NOW"
    case Literal(_) => true
    case Strict(op, args) => Accepts(reg, op, |args|) && WellFormedAll(args, reg, scope)
    case Cond(test, yes, no) =>
      WellFormed(test, reg, scope) && WellFormed(yes, reg, scope) && WellFormed(no, reg, scope)
    case IfNull(args) => |args| > 1 && WellFormedAll(args, reg, scope)
    case Switch(branches, otherwise) =>
      branches != [] && WellFormedBranches(branches, reg, scope) && (otherwise.Some? ==> WellFormed(otherwise.value, reg, scope))
    case MapOver(input, alias, body) => WellFormed(input, reg, scope) && WellFormed(body, reg, scope + {alias})
    case FilterOver(input, alias, body, limit) =>
      WellFormed(input, reg, scope) && WellFormed(body, reg, scope + {alias}) && (limit.Some? ==> WellFormed(limit.value, reg, scope))
    case Reduce(input, initial, body) =>
      WellFormed(input, reg, scope) && WellFormed(initial, reg, scope) && WellFormed(body, reg, scope + {"value", "this"})
    case Let(vars, body) =>
      WellFormedBindings(vars, reg, scope) && WellFormed(body, reg, scope + Introduced(vars))
    case Document(fields) => WellFormedBindings(fields, reg, scope)
  }

  predicate WellFormedAll(es: seq<Expr>, reg: Registry, scope: set<string>)
    decreases es, 0
  {
    es == [] || (WellFormed(es[0], reg, scope) && WellFormedAll(es[1..], reg, scope))
  }

  predicate WellFormedBindings(bs: seq<Binding>, reg: Registry, scope: set<string>)
    decreases bs, 0
  {
    bs == [] || (WellFormed(bs[0].value, reg, scope) && WellFormedBindings(bs[1..], reg, scope))
  }

  predicate WellFormedBranches(bs: seq<Branch>, reg: Registry, scope: set<string>)
    decreases bs, 0
  {
    bs == [] || (WellFormedBranch(bs[0], reg, scope) && WellFormedBranches(bs[1..], reg, scope))
  }

  predicate WellFormedBranch(b: Branch, reg: Registry, scope: set<string>)
    decreases b, 0
  {
    WellFormed(b.test, reg, scope) && WellFormed(b.outcome, reg, scope)
  }

  function Introduced(bs: seq<Binding>): set<string> {
    set n | n in Names(bs)
  }

  /**
   * No `$map`, `$filter` or `$reduce` rebinds a name already in scope (a `$let`
   * may), and no path names the identity of rows not yet reshaped.
   */
  predicate Hygienic(e: Expr, plain: bool, scope: set<string>)
    decreases e, 0
  {
    match e
    case Field(path) => KeepsIdentity(path, plain)
    case Variable(_) => true
    case Literal(_) => true
    case Strict(_, args) => HygienicAll(args, plain, scope)
    case Cond(test, yes, no) => Hygienic(test, plain, scope) && Hygienic(yes, plain, scope) && Hygienic(no, plain, scope)
    case IfNull(args) => HygienicAll(args, plain, scope)
    case Switch(branches, otherwise) =>
      HygienicBranches(branches, plain, scope) && (otherwise.Some? ==> Hygienic(otherwise.value, plain, scope))
    case MapOver(input, alias, body) =>
      Hygienic(input, plain, scope) && alias !in scope && Hygienic(body, plain, scope + {alias})
    case FilterOver(input, alias, body, limit) =>
      Hygienic(input, plain, scope) && alias !in scope && Hygienic(body, plain, scope + {alias})
      && (limit.Some? ==> Hygienic(limit.value, plain, scope))
    case Reduce(input, initial, body) =>
      Hygienic(input, plain, scope) && Hygienic(initial, plain, scope)
      && "value" !in scope && "this" !in scope && Hygienic(body, plain, scope + {"value", "this"})
    case Let(vars, body) => HygienicBindings(vars, plain, scope) && Hygienic(body, plain, scope + Introduced(vars))
    case Document(fields) => HygienicBindings(fields, plain, scope)
  }

  predicate HygienicAll(es: seq<Expr>, plain: bool, scope: set<string>)
    decreases es, 0
  {
    es == [] || (Hygienic(es[0], plain, scope) && HygienicAll(es[1..], plain, scope))
  }

  predicate HygienicBindings(bs: seq<Binding>, plain: bool, scope: set<string>)
    decreases bs, 0
  {
    bs == [] || (Hygienic(bs[0].value, plain, scope) && HygienicBindings(bs[1..], plain, scope))
  }

  predicate HygienicBranches(bs: seq<Branch>, plain: bool, scope: set<string>)
    decreases bs, 0
  {
    bs == [] || (HygienicBranch(bs[0], plain, scope) && HygienicBranches(bs[1..], plain, scope))
  }

  predicate HygienicBranch(b: Branch, plain: bool, scope: set<string>)
    decreases b, 0
  {
    Hygienic(b.test, plain, scope) && Hygienic(b.outcome, plain, scope)
  }

  lemma {:induction false} BindAllKeys<T>(names: seq<string>, values: seq<T>, env: map<string, T>)
    requires |names| == |values|
    ensures BindAll(names, values, env).Keys == env.Keys + (set n | n in names)
    ensures forall n :: n in BindAll(names, values, env) && n !in names ==> BindAll(names, values, env)[n] == env[n]
  {
    if names != [] {
      BindAllKeys(names[1..], values[1..], env[names[0] := values[0]]);
      assert names == [names[0]] + names[1..];
    }
  }

  /** Compilation succeeds exactly on the well-formed expressions. */
  lemma {:induction false} CompilesExactlyWellFormed(e: Expr, reg: Registry, plain: bool, vars: Scope)
    ensures Compile(e, reg, plain, vars).Success? <==> WellFormed(e, reg, vars.Keys)
    decreases e, 1
  {
    match e
    case Field(_) =>
    case Variable(_) =>
    case Literal(_) =>
    case Strict(_, args) =>
      CompilesAllWellFormed(args, reg, plain, vars);
    case Cond(test, yes, no) =>
      CompilesExactlyWellFormed(test, reg, plain, vars);
      CompilesExactlyWellFormed(yes, reg, plain, vars);
      CompilesExactlyWellFormed(no, reg, plain, vars);
    case IfNull(args) =>
      CompilesAllWellFormed(args, reg, plain, vars);
    case Switch(_, _) =>
      CompilesSwitch(e, reg, plain, vars);
    case MapOver(_, _, _) =>
      CompilesMap(e, reg, plain, vars);
    case FilterOver(_, _, _, _) =>
      CompilesFilter(e, reg, plain, vars);
    case Reduce(_, _, _) =>
      CompilesReduce(e, reg, plain, vars);
    case Let(_, _) =>
      CompilesLet(e, reg, plain, vars);
    case Document(fields) =>
      CompilesBindingsWellFormed(fields, reg, plain, vars);
  }

  lemma {:induction false} CompilesMap(e: Expr, reg: Registry, plain: bool, vars: Scope)
    requires e.MapOver?
    ensures Compile(e, reg, plain, vars).Success? <==> WellFormed(e, reg, vars.Keys)
    decreases e, 0
  {
    CompilesExactlyWellFormed(e.input, reg, plain, vars);
    CompilesUnder(e.body, e.alias, reg, plain, vars);
  }

  lemma {:induction false} CompilesFilter(e: Expr, reg: Registry, plain: bool, vars: Scope)
    requires e.FilterOver?
    ensures Compile(e, reg, plain, vars).Success? <==> WellFormed(e, reg, vars.Keys)
    decreases e, 0
  {
    CompilesExactlyWellFormed(e.input, reg, plain, vars);
    CompilesUnder(e.body, e.alias, reg, plain, vars);
    if e.limit.Some? {
      CompilesExactlyWellFormed(e.limit.value, reg, plain, vars);
    }
  }

  lemma {:induction false} CompilesLet(e: Expr, reg: Registry, plain: bool, vars: Scope)
    requires e.Let?
    ensures Compile(e, reg, plain, vars).Success? <==> WellFormed(e, reg, vars.Keys)
    decreases e, 0
  {
    CompilesBindingsWellFormed(e.vars, reg, plain, vars);
    var terms := CompileBindings(e.vars, reg, plain, vars);
    if terms.Success? {
      BindAllKeys(Names(e.vars), terms.value, vars);
      CompilesExactlyWellFormed(e.body, reg, plain, BindAll(Names(e.vars), terms.value, vars));
    }
  }

  lemma {:induction false} CompilesUnder(body: Expr, alias: string, reg: Registry, plain: bool, vars: Scope)
    ensures Compile(body, reg, plain, vars[alias := Param(|vars|)]).Success? <==> WellFormed(body, reg, vars.Keys + {alias})
    decreases body, 2
  {
    var inner := vars[alias := Param(|vars|)];
    assert inner.Keys == vars.Keys + {alias};
    CompilesExactlyWellFormed(body, reg, plain, inner);
  }

  lemma {:induction false} CompilesReduce(e: Expr, reg: Registry, plain: bool, vars: Scope)
    requires e.Reduce?
    ensures Compile(e, reg, plain, vars).Success? <==> WellFormed(e, reg, vars.Keys)
    decreases e, 0
  {
    CompilesExactlyWellFormed(e.initial, reg, plain, vars);
    CompilesExactlyWellFormed(e.input, reg, plain, vars);
    var inner := vars["value" := Param(|vars|)]["this" := Param(|vars| + 1)];
    CompilesExactlyWellFormed(e.body, reg, plain, inner);
    assert inner.Keys == vars.Keys + {"value", "this"};
  }

  lemma {:induction false} CompilesSwitch(e: Expr, reg: Registry, plain: bool, vars: Scope)
    requires e.Switch?
    ensures Compile(e, reg, plain, vars).Success? <==> WellFormed(e, reg, vars.Keys)
    decreases e, 0
  {
    if e.otherwise.Some? {
      CompilesExactlyWellFormed(e.otherwise.value, reg, plain, vars);
      var fallback := Compile(e.otherwise.value, reg, plain, vars);
      if fallback.Success? {
        CompilesSwitchWellFormed(e.branches, fallback.value, reg, plain, vars);
      }
    } else {
      CompilesSwitchWellFormed(e.branches, Bound(Absent), reg, plain, vars);
    }
  }

  lemma {:induction false} CompilesAllWellFormed(es: seq<Expr>, reg: Registry, plain: bool, vars: Scope)
    ensures CompileAll(es, reg, plain, vars).Success? <==> WellFormedAll(es, reg, vars.Keys)
    decreases es, 0
  {
    if es != [] {
      CompilesExactlyWellFormed(es[0], reg, plain, vars);
      CompilesAllWellFormed(es[1..], reg, plain, vars);
    }
  }

  lemma {:induction false} CompilesBindingsWellFormed(bs: seq<Binding>, reg: Registry, plain: bool, vars: Scope)
    ensures CompileBindings(bs, reg, plain, vars).Success? <==> WellFormedBindings(bs, reg, vars.Keys)
    decreases bs, 0
  {
    if bs != [] {
      CompilesExactlyWellFormed(bs[0].value, reg, plain, vars);
      CompilesBindingsWellFormed(bs[1..], reg, plain, vars);
    }
  }

  lemma {:induction false} CompilesSwitchWellFormed(bs: seq<Branch>, fallback: Term, reg: Registry, plain: bool, vars: Scope)
    ensures CompileSwitch(bs, fallback, reg, plain, vars).Success? <==> WellFormedBranches(bs, reg, vars.Keys)
    decreases bs, 0
  {
    if bs != [] {
      CompilesSwitchWellFormed(bs[1..], fallback, reg, plain, vars);
      var rest := CompileSwitch(bs[1..], fallback, reg, plain, vars);
      if rest.Success? {
        CompilesBranchWellFormed(bs[0], rest.value, reg, plain, vars);
      }
    }
  }

  lemma {:induction false} CompilesBranchWellFormed(b: Branch, fallback: Term, reg: Registry, plain: bool, vars: Scope)
    ensures CompileBranch(b, fallback, reg, plain, vars).Success? <==> WellFormedBranch(b, reg, vars.Keys)
    decreases b, 0
  {
    CompilesExactlyWellFormed(b.test, reg, plain, vars);
    CompilesExactlyWellFormed(b.outcome, reg, plain, vars);
  }

  // What a successful compilation of a closure operator was made from.

  lemma MapParts(e: Expr, reg: Registry, plain: bool, vars: Scope) returns (source: Term, closure: Term)
    requires e.MapOver? && Compile(e, reg, plain, vars).Success?
    ensures Compile(e.input, reg, plain, vars) == Success(source)
    ensures Compile(e.body, reg, plain, vars[e.alias := Param(|vars|)]) == Success(closure)
    ensures Compile(e, reg, plain, vars) == Success(ArrayMap(source, |vars|, closure))
  {
    source := Compile(e.input, reg, plain, vars).value;
    closure := Compile(e.body, reg, plain, vars[e.alias := Param(|vars|)]).value;
  }

  lemma FilterParts(e: Expr, reg: Registry, plain: bool, vars: Scope) returns (source: Term, closure: Term, limit: Term)
    requires e.FilterOver? && Compile(e, reg, plain, vars).Success?
    ensures Compile(e.input, reg, plain, vars) == Success(source)
    ensures Compile(e.body, reg, plain, vars[e.alias := Param(|vars|)]) == Success(closure)
    ensures e.limit.Some? ==> Compile(e.limit.value, reg, plain, vars) == Success(limit)
    ensures Compile(e, reg, plain, vars) == Success(
                                              if e.limit.None? then ArrayFilter(source, |vars|, closure)
                                              else Apply(Slice, [ArrayFilter(source, |vars|, closure), Bound(Int(0)), limit]))
  {
    source := Compile(e.input, reg, plain, vars).value;
    closure := Compile(e.body, reg, plain, vars[e.alias := Param(|vars|)]).value;
    limit := if e.limit.Some? then Compile(e.limit.value, reg, plain, vars).value else TimeNow;
  }

  lemma ReduceParts(e: Expr, reg: Registry, plain: bool, vars: Scope) returns (seed: Term, source: Term, closure: Term)
    requires e.Reduce? && Compile(e, reg, plain, vars).Success?
    ensures Compile(e.initial, reg, plain, vars) == Success(seed)
    ensures Compile(e.input, reg, plain, vars) == Success(source)
    ensures Compile(e.body, reg, plain, vars["value" := Param(|vars|)]["this" := Param(|vars| + 1)]) == Success(closure)
    ensures Compile(e, reg, plain, vars)
         == Success(ArrayReduce(Apply(Concat, [Apply(ArrayLiteral, [seed]), source]), |vars|, |vars| + 1, closure))
  {
    seed := Compile(e.initial, reg, plain, vars).value;
    source := Compile(e.input, reg, plain, vars).value;
    closure := Compile(e.body, reg, plain, vars["value" := Param(|vars|)]["this" := Param(|vars| + 1)]).value;
  }
}
