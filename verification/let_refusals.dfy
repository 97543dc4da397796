/**
 * When a refusal survives `$let`. MongoDB evaluates every binding first; the
 * compiler substitutes the binding's term where the variable is read, so what is
 * refused is refused again exactly where the body evaluates it.
 */
module LetRefusals {
  import opened Values
  import opened ExpressionSource
  import opened SurrealTerms
  import opened ExpressionCompiler

  // What an expression reads, and what it evaluates whatever the document.

  /** The outer variables an expression mentions. */
  function Reads(e: Expr): set<string>
    decreases e, 0
  {
    match e
    case Field(_) => {}
    case Variable(name) => {name}
    case Literal(_) => {}
    case Strict(_, args) => ReadsAll(args)
    case Cond(test, yes, no) => Reads(test) + Reads(yes) + Reads(no)
    case IfNull(args) => ReadsAll(args)
    case Switch(branches, otherwise) => ReadsBranches(branches) + (if otherwise.Some? then Reads(otherwise.value) else {})
    case MapOver(input, alias, body) => Reads(input) + (Reads(body) - {alias})
    case FilterOver(input, alias, body, limit) =>
      Reads(input) + (Reads(body) - {alias}) + (if limit.Some? then Reads(limit.value) else {})
    case Reduce(input, initial, body) => Reads(input) + Reads(initial) + (Reads(body) - {"value", "this"})
    case Let(vars, body) => ReadsBindings(vars) + (Reads(body) - Introduced(vars))
    case Document(fields) => ReadsBindings(fields)
  }

  function ReadsAll(es: seq<Expr>): set<string>
    decreases es, 0
  {
    if es == [] then {} else Reads(es[0]) + ReadsAll(es[1..])
  }

  function ReadsBindings(bs: seq<Binding>): set<string>
    decreases bs, 0
  {
    if bs == [] then {} else Reads(bs[0].value) + ReadsBindings(bs[1..])
  }

  function ReadsBranches(bs: seq<Branch>): set<string>
    decreases bs, 0
  {
    if bs == [] then {} else ReadsBranch(bs[0]) + ReadsBranches(bs[1..])
  }

  function ReadsBranch(b: Branch): set<string>
    decreases b, 0
  {
    Reads(b.test) + Reads(b.outcome)
  }

  /** The outer variables an expression evaluates on every document. */
  function Demands(e: Expr): set<string>
    decreases e, 0
  {
    match e
    case Field(_) => {}
    case Variable(name) => {name}
    case Literal(_) => {}
    case Strict(_, args) => DemandsAll(args)
    case Cond(test, yes, no) => Demands(test) + Demands(yes) * Demands(no)
    case IfNull(args) => if args == [] then {} else Demands(args[0])
    case Switch(branches, _) => if branches == [] then {} else DemandsBranch(branches[0])
    case MapOver(input, _, _) => Demands(input)
    case FilterOver(input, _, _, limit) => Demands(input) + (if limit.Some? then Demands(limit.value) else {})
    case Reduce(input, initial, _) => Demands(input) + Demands(initial)
    case Let(vars, body) => (Demands(body) - Introduced(vars)) + DemandsThrough(vars, Demands(body))
    case Document(fields) => DemandsBindings(fields)
  }

  function DemandsAll(es: seq<Expr>): set<string>
    decreases es, 0
  {
    if es == [] then {} else Demands(es[0]) + DemandsAll(es[1..])
  }

  function DemandsBindings(bs: seq<Binding>): set<string>
    decreases bs, 0
  {
    if bs == [] then {} else Demands(bs[0].value) + DemandsBindings(bs[1..])
  }

  /** What the bindings in force for `wanted` evaluate. */
  function DemandsThrough(bs: seq<Binding>, wanted: set<string>): set<string>
    decreases bs, 0
  {
    if bs == [] then {}
    else (if bs[0].name in wanted && bs[0].name !in Names(bs[1..]) then Demands(bs[0].value) else {}) + DemandsThrough(bs[1..], wanted)
  }

  function DemandsBranch(b: Branch): set<string>
    decreases b, 0
  {
    Demands(b.test)
  }

  // A refused operand refuses the whole.

  predicate Refused(t: Term, w: World, row: map<string, Value>, params: Params) {
    EvalTerm(t, w, row, params).None?
  }

  lemma {:induction false} OneRefusedOfAll(ts: seq<Term>, i: nat, w: World, row: map<string, Value>, params: Params)
    requires i < |ts| && Refused(ts[i], w, row, params)
    ensures EvalTerms(ts, w, row, params).None?
  {
    if i > 0 {
      OneRefusedOfAll(ts[1..], i - 1, w, row, params);
    }
  }

  lemma {:induction false} ChainRefused(fn: Fn, ts: seq<Term>, i: nat, w: World, row: map<string, Value>, params: Params)
    requires i < |ts| && Refused(ts[i], w, row, params)
    ensures Refused(Chain(fn, ts), w, row, params)
  {
    if |ts| > 1 {
      var front, last := ts[..|ts| - 1], ts[|ts| - 1];
      if i < |front| {
        ChainRefused(fn, front, i, w, row, params);
        OneRefusedOfAll([Chain(fn, front), last], 0, w, row, params);
      } else {
        OneRefusedOfAll([Chain(fn, front), last], 1, w, row, params);
      }
    }
  }

  lemma SetEqualsRefused(ts: seq<Term>, i: nat, w: World, row: map<string, Value>, params: Params)
    requires |ts| > 1 && i < |ts| && Refused(ts[i], w, row, params)
    ensures Refused(Chain(And, AdjacentPairs(CanonicalSets(ts))), w, row, params)
  {
    var sets := CanonicalSets(ts);
    OneRefusedOfAll([ts[i]], 0, w, row, params);
    OneRefusedOfAll([Apply(DistinctOf, [ts[i]])], 0, w, row, params);
    assert Refused(sets[i], w, row, params);
    var j := if i == 0 then 0 else i - 1;
    OneRefusedOfAll([sets[j], sets[j + 1]], i - j, w, row, params);
    ChainRefused(And, AdjacentPairs(sets), j, w, row, params);
  }

  /** Every strict operator's term evaluates every operand. */
  lemma BuildRefused(reg: Registry, op: Operator, ts: seq<Term>, i: nat, w: World, row: map<string, Value>, params: Params)
    requires Accepts(reg, op, |ts|) && i < |ts| && Refused(ts[i], w, row, params)
    ensures Refused(Build(reg, op, ts), w, row, params)
  {
    OneRefusedOfAll(ts, i, w, row, params);
    match op
    case Call(_) =>
    case Add => ChainRefused(Plus, ts, i, w, row, params);
    case Multiply => ChainRefused(Times, ts, i, w, row, params);
    case Divide =>
      if i == 0 {
        OneRefusedOfAll([ts[0]], 0, w, row, params);
      }
      OneRefusedOfAll([Apply(CastFloat, [ts[0]]), ts[1]], i, w, row, params);
    case SetUnion => ChainRefused(Union, ts, i, w, row, params);
    case SetIntersection => ChainRefused(Intersect, ts, i, w, row, params);
    case SetDifference => OneRefusedOfAll([Apply(Complement, ts)], 0, w, row, params);
    case SetEquals => SetEqualsRefused(ts, i, w, row, params);
    case SetIsSubset => OneRefusedOfAll([ts[1], ts[0]], 1 - i, w, row, params);
    case MergeObjects => ChainRefused(Extend, ts, i, w, row, params);
    case MakeArray =>
  }

  lemma CoalesceRefused(ts: seq<Term>, w: World, row: map<string, Value>, params: Params)
    requires |ts| > 0 && Refused(ts[0], w, row, params)
    ensures Refused(CoalesceAll(ts), w, row, params)
  {
  }

  // A demanded variable whose term is refused refuses the expression.

  lemma {:induction false} DemandRefuses(e: Expr, n: string, reg: Registry, plain: bool, vars: Scope, w: World, row: map<string, Value>, params: Params)
    requires Compile(e, reg, plain, vars).Success? && n in Demands(e) && n in vars && Refused(vars[n], w, row, params)
    ensures Refused(Compile(e, reg, plain, vars).value, w, row, params)
    decreases e, 1
  {
    match e
    case Field(_) =>
    case Variable(_) =>
    case Literal(_) =>
    case Strict(op, args) =>
      var i := DemandOfAll(args, n, reg, plain, vars, w, row, params);
      BuildRefused(reg, op, CompileAll(args, reg, plain, vars).value, i, w, row, params);
    case Cond(_, _, _) =>
      DemandOfCond(e, n, reg, plain, vars, w, row, params);
    case IfNull(args) =>
      DemandRefuses(args[0], n, reg, plain, vars, w, row, params);
      CoalesceRefused(CompileAll(args, reg, plain, vars).value, w, row, params);
    case Switch(_, _) =>
      DemandOfSwitch(e, n, reg, plain, vars, w, row, params);
    case MapOver(input, _, _) =>
      DemandRefuses(input, n, reg, plain, vars, w, row, params);
    case FilterOver(_, _, _, _) =>
      DemandOfFilter(e, n, reg, plain, vars, w, row, params);
    case Reduce(_, _, _) =>
      DemandOfReduce(e, n, reg, plain, vars, w, row, params);
    case Let(_, _) =>
      DemandOfLet(e, n, reg, plain, vars, w, row, params);
    case Document(fields) =>
      var i := DemandOfBindings(fields, n, reg, plain, vars, w, row, params);
      OneRefusedOfAll(CompileBindings(fields, reg, plain, vars).value, i, w, row, params);
  }

  lemma {:induction false} DemandOfAll(es: seq<Expr>, n: string, reg: Registry, plain: bool, vars: Scope, w: World, row: map<string, Value>, params: Params)
    returns (i: nat)
    requires CompileAll(es, reg, plain, vars).Success? && n in DemandsAll(es) && n in vars && Refused(vars[n], w, row, params)
    ensures i < |es| && Refused(CompileAll(es, reg, plain, vars).value[i], w, row, params)
    decreases es, 0
  {
    if n in Demands(es[0]) {
      i := 0;
      DemandRefuses(es[0], n, reg, plain, vars, w, row, params);
    } else {
      i := DemandOfAll(es[1..], n, reg, plain, vars, w, row, params);
      i := i + 1;
    }
  }

  lemma {:induction false} DemandOfBindings(bs: seq<Binding>, n: string, reg: Registry, plain: bool, vars: Scope, w: World, row: map<string, Value>, params: Params)
    returns (i: nat)
    requires CompileBindings(bs, reg, plain, vars).Success? && n in DemandsBindings(bs) && n in vars && Refused(vars[n], w, row, params)
    ensures i < |bs| && Refused(CompileBindings(bs, reg, plain, vars).value[i], w, row, params)
    decreases bs, 0
  {
    if n in Demands(bs[0].value) {
      i := 0;
      DemandRefuses(bs[0].value, n, reg, plain, vars, w, row, params);
    } else {
      i := DemandOfBindings(bs[1..], n, reg, plain, vars, w, row, params);
      i := i + 1;
    }
  }

  lemma {:induction false} DemandOfCond(e: Expr, n: string, reg: Registry, plain: bool, vars: Scope, w: World, row: map<string, Value>, params: Params)
    requires e.Cond? && Compile(e, reg, plain, vars).Success? && n in Demands(e) && n in vars && Refused(vars[n], w, row, params)
    ensures Refused(Compile(e, reg, plain, vars).value, w, row, params)
    decreases e, 0
  {
    if n in Demands(e.test) {
      DemandRefuses(e.test, n, reg, plain, vars, w, row, params);
    } else {
      DemandRefuses(e.yes, n, reg, plain, vars, w, row, params);
      DemandRefuses(e.no, n, reg, plain, vars, w, row, params);
    }
  }

  lemma {:induction false} DemandOfSwitch(e: Expr, n: string, reg: Registry, plain: bool, vars: Scope, w: World, row: map<string, Value>, params: Params)
    requires e.Switch? && Compile(e, reg, plain, vars).Success? && n in Demands(e) && n in vars && Refused(vars[n], w, row, params)
    ensures Refused(Compile(e, reg, plain, vars).value, w, row, params)
    decreases e, 0
  {
    var fallback := if e.otherwise.None? then Bound(Absent) else Compile(e.otherwise.value, reg, plain, vars).value;
    assert Compile(e, reg, plain, vars) == CompileSwitch(e.branches, fallback, reg, plain, vars);
    var rest := CompileSwitch(e.branches[1..], fallback, reg, plain, vars).value;
    DemandOfBranch(e.branches[0], n, rest, reg, plain, vars, w, row, params);
  }

  lemma {:induction false} DemandOfBranch(b: Branch, n: string, rest: Term, reg: Registry, plain: bool, vars: Scope, w: World, row: map<string, Value>, params: Params)
    requires CompileBranch(b, rest, reg, plain, vars).Success? && n in DemandsBranch(b) && n in vars && Refused(vars[n], w, row, params)
    ensures Refused(CompileBranch(b, rest, reg, plain, vars).value, w, row, params)
    decreases b, 0
  {
    DemandRefuses(b.test, n, reg, plain, vars, w, row, params);
  }

  lemma {:induction false} DemandOfFilter(e: Expr, n: string, reg: Registry, plain: bool, vars: Scope, w: World, row: map<string, Value>, params: Params)
    requires e.FilterOver? && Compile(e, reg, plain, vars).Success? && n in Demands(e) && n in vars && Refused(vars[n], w, row, params)
    ensures Refused(Compile(e, reg, plain, vars).value, w, row, params)
    decreases e, 0
  {
    var source, closure, limit := FilterParts(e, reg, plain, vars);
    var filtered := ArrayFilter(source, |vars|, closure);
    if n in Demands(e.input) {
      DemandRefuses(e.input, n, reg, plain, vars, w, row, params);
      assert Refused(filtered, w, row, params);
      OneRefusedOfAll([filtered, Bound(Int(0)), limit], 0, w, row, params);
    } else {
      DemandRefuses(e.limit.value, n, reg, plain, vars, w, row, params);
      OneRefusedOfAll([filtered, Bound(Int(0)), limit], 2, w, row, params);
    }
  }

  lemma {:induction false} DemandOfReduce(e: Expr, n: string, reg: Registry, plain: bool, vars: Scope, w: World, row: map<string, Value>, params: Params)
    requires e.Reduce? && Compile(e, reg, plain, vars).Success? && n in Demands(e) && n in vars && Refused(vars[n], w, row, params)
    ensures Refused(Compile(e, reg, plain, vars).value, w, row, params)
    decreases e, 0
  {
    var seed, source, closure := ReduceParts(e, reg, plain, vars);
    if n in Demands(e.input) {
      DemandRefuses(e.input, n, reg, plain, vars, w, row, params);
    } else {
      DemandRefuses(e.initial, n, reg, plain, vars, w, row, params);
    }
    SeededRefused(seed, source, |vars|, closure, w, row, params);
  }

  lemma SeededRefused(seed: Term, source: Term, k: nat, closure: Term, w: World, row: map<string, Value>, params: Params)
    requires Refused(seed, w, row, params) || Refused(source, w, row, params)
    ensures Refused(ArrayReduce(Apply(Concat, [Apply(ArrayLiteral, [seed]), source]), k, k + 1, closure), w, row, params)
  {
    if Refused(seed, w, row, params) {
      OneRefusedOfAll([seed], 0, w, row, params);
      OneRefusedOfAll([Apply(ArrayLiteral, [seed]), source], 0, w, row, params);
    } else {
      OneRefusedOfAll([Apply(ArrayLiteral, [seed]), source], 1, w, row, params);
    }
  }

  /** The last binding of a name is the one in force. */
  lemma {:induction false} BindAllLast(names: seq<string>, terms: seq<Term>, vars: Scope, i: nat)
    requires |names| == |terms| && i < |names| && names[i] !in names[i + 1..]
    ensures names[i] in BindAll(names, terms, vars) && BindAll(names, terms, vars)[names[i]] == terms[i]
  {
    if i == 0 {
      BindAllKeys(names[1..], terms[1..], vars[names[0] := terms[0]]);
    } else {
      assert names[1..][i - 1 + 1..] == names[i + 1..];
      BindAllLast(names[1..], terms[1..], vars[names[0] := terms[0]], i - 1);
    }
  }

  lemma {:induction false} DemandOfLet(e: Expr, n: string, reg: Registry, plain: bool, vars: Scope, w: World, row: map<string, Value>, params: Params)
    requires e.Let? && Compile(e, reg, plain, vars).Success? && n in Demands(e) && n in vars && Refused(vars[n], w, row, params)
    ensures Refused(Compile(e, reg, plain, vars).value, w, row, params)
    decreases e, 0
  {
    var terms := CompileBindings(e.vars, reg, plain, vars).value;
    var inner := BindAll(Names(e.vars), terms, vars);
    BindAllKeys(Names(e.vars), terms, vars);
    if n in Demands(e.body) && n !in Introduced(e.vars) {
      DemandRefuses(e.body, n, reg, plain, inner, w, row, params);
    } else {
      var i := DemandOfThrough(e.vars, Demands(e.body), n, reg, plain, vars, w, row, params);
      BindAllLast(Names(e.vars), terms, vars, i);
      DemandRefuses(e.body, e.vars[i].name, reg, plain, inner, w, row, params);
    }
  }

  lemma {:induction false} DemandOfThrough(bs: seq<Binding>, wanted: set<string>, n: string, reg: Registry, plain: bool, vars: Scope, w: World, row: map<string, Value>, params: Params)
    returns (i: nat)
    requires CompileBindings(bs, reg, plain, vars).Success? && n in DemandsThrough(bs, wanted) && n in vars && Refused(vars[n], w, row, params)
    ensures i < |bs| && bs[i].name in wanted && bs[i].name !in Names(bs)[i + 1..]
    ensures Refused(CompileBindings(bs, reg, plain, vars).value[i], w, row, params)
    decreases bs, 0
  {
    assert Names(bs)[1..] == Names(bs[1..]);
    if bs[0].name in wanted && bs[0].name !in Names(bs[1..]) && n in Demands(bs[0].value) {
      i := 0;
      DemandRefuses(bs[0].value, n, reg, plain, vars, w, row, params);
    } else {
      i := DemandOfThrough(bs[1..], wanted, n, reg, plain, vars, w, row, params);
      assert Names(bs)[1..][i + 1..] == Names(bs)[i + 1 + 1..];
      i := i + 1;
    }
  }

  // A variable that is not read leaves no trace.

  /** Two scopes with the same names, which agree on those in `on`. */
  predicate SameTerms(a: Scope, b: Scope, on: set<string>) {
    a.Keys == b.Keys && forall n :: n in on && n in a ==> a[n] == b[n]
  }

  lemma SameUnder(a: Scope, b: Scope, on: set<string>, alias: string, k: nat)
    requires SameTerms(a, b, on - {alias})
    ensures SameTerms(a[alias := Param(k)], b[alias := Param(k)], on) && |a| == |b|
  {
    assert |a| == |a.Keys| && |b| == |b.Keys|;
  }

  lemma SameUnderTwo(a: Scope, b: Scope, on: set<string>, first: string, second: string, k: nat)
    requires SameTerms(a, b, on - {first, second})
    ensures SameTerms(a[first := Param(k)][second := Param(k + 1)], b[first := Param(k)][second := Param(k + 1)], on) && |a| == |b|
  {
    assert on - {first, second} == (on - {second}) - {first};
    SameUnder(a, b, on - {second}, first, k);
    SameUnder(a[first := Param(k)], b[first := Param(k)], on, second, k + 1);
  }

  lemma {:induction false} SameAfterBindings(names: seq<string>, terms: seq<Term>, a: Scope, b: Scope, on: set<string>)
    requires |names| == |terms| && SameTerms(a, b, on - (set n | n in names))
    ensures SameTerms(BindAll(names, terms, a), BindAll(names, terms, b), on)
  {
    if names != [] {
      var inner := on - (set n | n in names[1..]);
      assert on - (set n | n in names) == inner - {names[0]} by {
        assert names == [names[0]] + names[1..];
      }
      SameAfterBindings(names[1..], terms[1..], a[names[0] := terms[0]], b[names[0] := terms[0]], on);
    }
  }

  /** A compiled expression depends on the terms of the variables it reads. */
  lemma {:induction false} CompileDependsOnReads(e: Expr, reg: Registry, plain: bool, a: Scope, b: Scope)
    requires SameTerms(a, b, Reads(e))
    ensures Compile(e, reg, plain, a) == Compile(e, reg, plain, b)
    decreases e, 1
  {
    match e
    case Field(_) =>
    case Variable(_) =>
    case Literal(_) =>
    case Strict(_, args) => AllDependOnReads(args, reg, plain, a, b);
    case Cond(test, yes, no) =>
      CompileDependsOnReads(test, reg, plain, a, b);
      CompileDependsOnReads(yes, reg, plain, a, b);
      CompileDependsOnReads(no, reg, plain, a, b);
    case IfNull(args) => AllDependOnReads(args, reg, plain, a, b);
    case Switch(_, _) => CasesDependOnReads(e, reg, plain, a, b);
    case MapOver(input, alias, body) =>
      CompileDependsOnReads(input, reg, plain, a, b);
      UnderDependsOnReads(body, alias, reg, plain, a, b);
    case FilterOver(_, _, _, _) => FilterDependsOnReads(e, reg, plain, a, b);
    case Reduce(_, _, _) => ReduceDependsOnReads(e, reg, plain, a, b);
    case Let(_, _) => LetDependsOnReads(e, reg, plain, a, b);
    case Document(fields) => BindingsDependOnReads(fields, reg, plain, a, b);
  }

  lemma {:induction false} CasesDependOnReads(e: Expr, reg: Registry, plain: bool, a: Scope, b: Scope)
    requires e.Switch? && SameTerms(a, b, Reads(e))
    ensures Compile(e, reg, plain, a) == Compile(e, reg, plain, b)
    decreases e, 0
  {
    if e.otherwise.Some? {
      CompileDependsOnReads(e.otherwise.value, reg, plain, a, b);
      var fallback := Compile(e.otherwise.value, reg, plain, a);
      if fallback.Success? {
        SwitchDependsOnReads(e.branches, fallback.value, reg, plain, a, b);
      }
    } else {
      SwitchDependsOnReads(e.branches, Bound(Absent), reg, plain, a, b);
    }
  }

  lemma {:induction false} FilterDependsOnReads(e: Expr, reg: Registry, plain: bool, a: Scope, b: Scope)
    requires e.FilterOver? && SameTerms(a, b, Reads(e))
    ensures Compile(e, reg, plain, a) == Compile(e, reg, plain, b)
    decreases e, 0
  {
    CompileDependsOnReads(e.input, reg, plain, a, b);
    UnderDependsOnReads(e.body, e.alias, reg, plain, a, b);
    if e.limit.Some? {
      CompileDependsOnReads(e.limit.value, reg, plain, a, b);
    }
  }

  lemma {:induction false} ReduceDependsOnReads(e: Expr, reg: Registry, plain: bool, a: Scope, b: Scope)
    requires e.Reduce? && SameTerms(a, b, Reads(e))
    ensures Compile(e, reg, plain, a) == Compile(e, reg, plain, b)
    decreases e, 0
  {
    CompileDependsOnReads(e.input, reg, plain, a, b);
    CompileDependsOnReads(e.initial, reg, plain, a, b);
    UnderTwoDependsOnReads(e.body, "value", "this", reg, plain, a, b);
  }

  lemma {:induction false} UnderDependsOnReads(body: Expr, alias: string, reg: Registry, plain: bool, a: Scope, b: Scope)
    requires SameTerms(a, b, Reads(body) - {alias})
    ensures Compile(body, reg, plain, a[alias := Param(|a|)]) == Compile(body, reg, plain, b[alias := Param(|b|)]) && |a| == |b|
    decreases body, 2
  {
    SameUnder(a, b, Reads(body), alias, |a|);
    CompileDependsOnReads(body, reg, plain, a[alias := Param(|a|)], b[alias := Param(|a|)]);
  }

  lemma {:induction false} UnderTwoDependsOnReads(body: Expr, first: string, second: string, reg: Registry, plain: bool, a: Scope, b: Scope)
    requires SameTerms(a, b, Reads(body) - {first, second})
    ensures Compile(body, reg, plain, a[first := Param(|a|)][second := Param(|a| + 1)])
         == Compile(body, reg, plain, b[first := Param(|b|)][second := Param(|b| + 1)]) && |a| == |b|
    decreases body, 2
  {
    SameUnderTwo(a, b, Reads(body), first, second, |a|);
    CompileDependsOnReads(body, reg, plain, a[first := Param(|a|)][second := Param(|a| + 1)], b[first := Param(|a|)][second := Param(|a| + 1)]);
  }

  lemma {:induction false} LetDependsOnReads(e: Expr, reg: Registry, plain: bool, a: Scope, b: Scope)
    requires e.Let? && SameTerms(a, b, Reads(e))
    ensures Compile(e, reg, plain, a) == Compile(e, reg, plain, b)
    decreases e, 0
  {
    BindingsDependOnReads(e.vars, reg, plain, a, b);
    var terms := CompileBindings(e.vars, reg, plain, a);
    if terms.Success? {
      SameAfterBindings(Names(e.vars), terms.value, a, b, Reads(e.body));
      CompileDependsOnReads(e.body, reg, plain, BindAll(Names(e.vars), terms.value, a), BindAll(Names(e.vars), terms.value, b));
    }
  }

  lemma {:induction false} AllDependOnReads(es: seq<Expr>, reg: Registry, plain: bool, a: Scope, b: Scope)
    requires SameTerms(a, b, ReadsAll(es))
    ensures CompileAll(es, reg, plain, a) == CompileAll(es, reg, plain, b)
    decreases es, 0
  {
    if es != [] {
      CompileDependsOnReads(es[0], reg, plain, a, b);
      AllDependOnReads(es[1..], reg, plain, a, b);
    }
  }

  lemma {:induction false} BindingsDependOnReads(bs: seq<Binding>, reg: Registry, plain: bool, a: Scope, b: Scope)
    requires SameTerms(a, b, ReadsBindings(bs))
    ensures CompileBindings(bs, reg, plain, a) == CompileBindings(bs, reg, plain, b)
    decreases bs, 0
  {
    if bs != [] {
      CompileDependsOnReads(bs[0].value, reg, plain, a, b);
      BindingsDependOnReads(bs[1..], reg, plain, a, b);
    }
  }

  lemma {:induction false} SwitchDependsOnReads(bs: seq<Branch>, fallback: Term, reg: Registry, plain: bool, a: Scope, b: Scope)
    requires SameTerms(a, b, ReadsBranches(bs))
    ensures CompileSwitch(bs, fallback, reg, plain, a) == CompileSwitch(bs, fallback, reg, plain, b)
    decreases bs, 0
  {
    if bs != [] {
      SwitchDependsOnReads(bs[1..], fallback, reg, plain, a, b);
      var rest := CompileSwitch(bs[1..], fallback, reg, plain, a);
      if rest.Success? {
        BranchDependsOnReads(bs[0], rest.value, reg, plain, a, b);
      }
    }
  }

  lemma {:induction false} BranchDependsOnReads(c: Branch, fallback: Term, reg: Registry, plain: bool, a: Scope, b: Scope)
    requires SameTerms(a, b, ReadsBranch(c))
    ensures CompileBranch(c, fallback, reg, plain, a) == CompileBranch(c, fallback, reg, plain, b)
    decreases c, 0
  {
    CompileDependsOnReads(c.test, reg, plain, a, b);
    CompileDependsOnReads(c.outcome, reg, plain, a, b);
  }

  // The two halves for `$let`.

  /** A refused binding the body always evaluates refuses the whole `$let`. */
  lemma LetKeepsRefusal(e: Expr, i: nat, reg: Registry, plain: bool, vars: Scope, w: World, row: map<string, Value>, params: Params)
    requires e.Let? && Compile(e, reg, plain, vars).Success?
    requires i < |e.vars| && e.vars[i].name !in Names(e.vars)[i + 1..] && e.vars[i].name in Demands(e.body)
    requires Refused(CompileBindings(e.vars, reg, plain, vars).value[i], w, row, params)
    ensures Refused(Compile(e, reg, plain, vars).value, w, row, params)
  {
    var terms := CompileBindings(e.vars, reg, plain, vars).value;
    BindAllLast(Names(e.vars), terms, vars, i);
    DemandRefuses(e.body, e.vars[i].name, reg, plain, BindAll(Names(e.vars), terms, vars), w, row, params);
  }

  lemma {:induction false} BindingsElsewhere(bs: seq<Binding>, i: nat, other: Expr, reg: Registry, plain: bool, vars: Scope)
    requires i < |bs| && CompileBindings(bs, reg, plain, vars).Success? && Compile(other, reg, plain, vars).Success?
    ensures CompileBindings(bs[i := Binding(bs[i].name, other)], reg, plain, vars)
         == Success(CompileBindings(bs, reg, plain, vars).value[i := Compile(other, reg, plain, vars).value])
  {
    var swapped, terms := bs[i := Binding(bs[i].name, other)], CompileBindings(bs, reg, plain, vars).value;
    var t, rest := Compile(other, reg, plain, vars).value, CompileBindings(bs[1..], reg, plain, vars).value;
    if i == 0 {
      assert swapped[1..] == bs[1..];
      assert terms[0 := t] == [t] + rest;
    } else {
      BindingsElsewhere(bs[1..], i - 1, other, reg, plain, vars);
      assert swapped[1..] == bs[1..][i - 1 := Binding(bs[i].name, other)];
      assert terms[i := t] == [terms[0]] + rest[i - 1 := t];
    }
  }

  lemma {:induction false} BindAllElsewhere(names: seq<string>, terms: seq<Term>, i: nat, t: Term, vars: Scope, on: set<string>)
    requires |names| == |terms| && i < |names| && names[i] !in on
    ensures SameTerms(BindAll(names, terms, vars), BindAll(names, terms[i := t], vars), on)
  {
    if i == 0 {
      assert terms[0 := t][1..] == terms[1..];
      SameAfterBindings(names[1..], terms[1..], vars[names[0] := terms[0]], vars[names[0] := t], on);
    } else {
      assert terms[i := t][1..] == terms[1..][i - 1 := t];
      BindAllElsewhere(names[1..], terms[1..], i - 1, t, vars[names[0] := terms[0]], on);
    }
  }

  /** `e` with binding `i` replaced. */
  function WithBinding(e: Expr, i: nat, other: Expr): Expr
    requires e.Let? && i < |e.vars|
  {
    Let(e.vars[i := Binding(e.vars[i].name, other)], e.body)
  }

  /** A binding the body does not read leaves no trace: any other gives the same term. */
  lemma LetDropsUnread(e: Expr, i: nat, other: Expr, reg: Registry, plain: bool, vars: Scope)
    requires e.Let? && Compile(e, reg, plain, vars).Success? && i < |e.vars| && e.vars[i].name !in Reads(e.body)
    requires Compile(other, reg, plain, vars).Success?
    ensures Compile(WithBinding(e, i, other), reg, plain, vars) == Compile(e, reg, plain, vars)
  {
    var bs, names := e.vars, Names(e.vars);
    var swapped := bs[i := Binding(bs[i].name, other)];
    BindingsElsewhere(bs, i, other, reg, plain, vars);
    assert Names(swapped) == names;
    var terms, t := CompileBindings(bs, reg, plain, vars).value, Compile(other, reg, plain, vars).value;
    BindAllElsewhere(names, terms, i, t, vars, Reads(e.body));
    CompileDependsOnReads(e.body, reg, plain, BindAll(names, terms, vars), BindAll(names, terms[i := t], vars));
  }

  /**
   * Exactly which refusals a `$let` keeps, for a binding the body either always
   * evaluates or never reads, where the `$let` has an answer once that binding does:
   * the refused binding refuses the compiled term exactly when the body evaluates it.
   * MongoDB refuses it either way.
   */
  lemma LetRefusalKeptExactly(e: Expr, i: nat, answer: Value, reg: Registry, plain: bool, vars: Scope, w: World, row: map<string, Value>, params: Params)
    requires e.Let? && Compile(e, reg, plain, vars).Success?
    requires i < |e.vars| && e.vars[i].name !in Names(e.vars)[i + 1..]
    requires e.vars[i].name in Demands(e.body) || e.vars[i].name !in Reads(e.body)
    requires Refused(CompileBindings(e.vars, reg, plain, vars).value[i], w, row, params)
    requires Compile(WithBinding(e, i, Literal(answer)), reg, plain, vars).Success?
    requires !Refused(Compile(WithBinding(e, i, Literal(answer)), reg, plain, vars).value, w, row, params)
    ensures Refused(Compile(e, reg, plain, vars).value, w, row, params) <==> e.vars[i].name in Reads(e.body)
  {
    if e.vars[i].name in Reads(e.body) {
      LetKeepsRefusal(e, i, reg, plain, vars, w, row, params);
    } else {
      LetDropsUnread(e, i, Literal(answer), reg, plain, vars);
    }
  }

  /** The source's side: a refused binding refuses the `$let`. */
  lemma {:induction false} RefusedBindingRefuses(bs: seq<Binding>, i: nat, w: World, doc: map<string, Value>, env: map<string, Value>)
    requires i < |bs| && Eval(bs[i].value, w, Converted, doc, env).None?
    ensures EvalBindings(bs, w, Converted, doc, env).None?
    ensures forall body :: Eval(Let(bs, body), w, Converted, doc, env).None?
  {
    if i > 0 {
      RefusedBindingRefuses(bs[1..], i - 1, w, doc, env);
    }
  }
}
