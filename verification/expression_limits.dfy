/**
 * Where the compiler's guarantee ends: what a captured name, an unused `$let`
 * variable, a `$switch` without an answer, a missing value and the identity do.
 */
module ExpressionLimits {
  import opened Values
  import opened ExpressionSource
  import opened SurrealTerms
  import opened ExpressionCompiler
  import opened ExpressionOperators
  import opened ExpressionCorrectness
  import opened LetRefusals
  import opened MissingValues
  import opened VariableCapture

  /** `$map` over a one-element array. */
  function MapOne(element: Value, alias: string, body: Expr): Expr {
    MapOver(Literal(Arr([element])), alias, body)
  }

  lemma MapOneMeans(element: Value, alias: string, body: Expr, w: World, doc: map<string, Value>, env: map<string, Value>, result: Value)
    requires Eval(body, w, Converted, doc, env[alias := element]) == Some(result)
    ensures Eval(MapOne(element, alias, body), w, Converted, doc, env) == Some(Arr([NullIfMissing(result)]))
  {
    assert EvalEach(body, alias, [], w, Converted, doc, env) == Some([]);
    assert [element][1..] == [] && [result] + [] == [result];
    assert EvalEach(body, alias, [element], w, Converted, doc, env) == Some([result]);
    assert Eval(Literal(Arr([element])), w, Converted, doc, env) == Some(Arr([element]));
    assert Filled([result]) == [NullIfMissing(result)];
  }

  lemma MapOneComputes(element: Value, param: nat, body: Term, w: World, row: map<string, Value>, params: Params, result: Value)
    requires EvalTerm(body, w, row, params[param := element]) == Some(result)
    ensures EvalTerm(ArrayMap(Bound(Arr([element])), param, body), w, row, params) == Some(Arr([result]))
  {
    assert EvalClosure(body, param, [], w, row, params) == Some([]);
    assert [element][1..] == [] && [result] + [] == [result];
    assert EvalClosure(body, param, [element], w, row, params) == Some([result]);
    assert EvalTerm(Bound(Arr([element])), w, row, params) == Some(Arr([element]));
  }

  lemma MapOneCompiles(element: Value, alias: string, body: Expr, s: Setting, vars: Scope, closure: Term)
    requires Compiled(s, body, vars[alias := Param(|vars|)]) == Success(closure)
    ensures Compiled(s, MapOne(element, alias, body), vars) == Success(ArrayMap(Bound(Arr([element])), |vars|, closure))
  {
    assert Compile(Literal(Arr([element])), s.reg, s.plain, vars) == Success(Bound(Arr([element])));
  }

  /** Rebinding `a` does not grow the scope, so the closure over `b` is numbered like the inner `a`. */
  function Capturing(a: string, b: string, outer: Value, inner: Value, last: Value): Expr {
    MapOne(outer, a, MapOne(inner, a, MapOne(last, b, Variable(a))))
  }

  lemma MapUncaptured(input: Expr, alias: string, body: Expr, plain: bool, track: Track)
    ensures Uncaptured(MapOver(input, alias, body), plain, track)
       <==> Uncaptured(input, plain, track) && UncapturedUnder(body, alias, plain, track)
  {
  }

  lemma MapOneUncaptured(element: Value, alias: string, body: Expr, plain: bool, track: Track)
    ensures Uncaptured(MapOne(element, alias, body), plain, track) <==> UncapturedUnder(body, alias, plain, track)
  {
    MapUncaptured(Literal(Arr([element])), alias, body, plain, track);
    assert Uncaptured(Literal(Arr([element])), plain, track);
  }

  lemma UnderIs(body: Expr, alias: string, plain: bool, track: Track, inner: Track)
    requires inner == Entered(track, alias, |track|)
    ensures UncapturedUnder(body, alias, plain, track) <==> Uncaptured(body, plain, inner)
  {
  }

  /** Entering a name twice leaves the track's size, so a third closure takes the second's parameter. */
  lemma ThirdTakesSecond(a: string, b: string, first: Track)
    requires a != b && a in first
    ensures var second := Entered(first, a, |first|);
            a in Entered(second, b, |second|) && !Entered(second, b, |second|)[a].live
  {
    var second := Entered(first, a, |first|);
    assert second.Keys == first.Keys;
    assert |second| == |second.Keys| && |first| == |first.Keys|;
  }

  lemma RebindingIsCaught(a: string, b: string, outer: Value, inner: Value, last: Value, plain: bool, track: Track)
    requires a != b
    ensures !Uncaptured(Capturing(a, b, outer, inner, last), plain, track)
  {
    var first := Entered(track, a, |track|);
    var second := Entered(first, a, |first|);
    ThirdTakesSecond(a, b, first);
    UnderIs(Variable(a), b, plain, second, Entered(second, b, |second|));
    MapOneUncaptured(last, b, Variable(a), plain, second);
    UnderIs(MapOne(last, b, Variable(a)), a, plain, first, second);
    MapOneUncaptured(inner, a, MapOne(last, b, Variable(a)), plain, first);
    UnderIs(MapOne(inner, a, MapOne(last, b, Variable(a))), a, plain, track, first);
    MapOneUncaptured(outer, a, MapOne(inner, a, MapOne(last, b, Variable(a))), plain, track);
  }

  /**
   * Rebinding alone is harmless: a `$map` left at its default name inside another,
   * over any input, reads the element it means and is no capture.
   */
  lemma DefaultNamesNest(alias: string, input: Expr, plain: bool, track: Track)
    ensures var e := MapOver(input, alias, MapOver(Variable(alias), alias, Variable(alias)));
            Uncaptured(e, plain, track) <==> Uncaptured(input, plain, track)
    ensures !Hygienic(MapOver(input, alias, MapOver(Variable(alias), alias, Variable(alias))), plain, track.Keys)
  {
    var outer := Entered(track, alias, |track|);
    var body := MapOver(Variable(alias), alias, Variable(alias));
    UnderIs(Variable(alias), alias, plain, outer, Entered(outer, alias, |outer|));
    MapUncaptured(Variable(alias), alias, Variable(alias), plain, outer);
    UnderIs(body, alias, plain, track, outer);
    MapUncaptured(input, alias, body, plain, track);
    assert !Hygienic(MapOver(Variable(alias), alias, Variable(alias)), plain, track.Keys + {alias});
  }

  /**
   * The capture, for every choice of names and elements: the expression means the
   * inner element, a missing one as null, and the compiled term computes the last one.
   * They agree exactly when the two are equal.
   */
  lemma RebindingCaptures(a: string, b: string, outer: Value, inner: Value, last: Value, s: Setting)
    requires a != b
    ensures !Uncaptured(Capturing(a, b, outer, inner, last), s.plain, map[])
    ensures Eval(Capturing(a, b, outer, inner, last), s.w, Converted, s.doc, map[]) == Some(Arr([Arr([Arr([NullIfMissing(inner)])])]))
    ensures Compiled(s, Capturing(a, b, outer, inner, last), map[]).Success?
    ensures EvalTerm(Compiled(s, Capturing(a, b, outer, inner, last), map[]).value, s.w, s.row, map[]) == Some(Arr([Arr([Arr([last])])]))
    ensures var e := Capturing(a, b, outer, inner, last);
            EvalTerm(Compiled(s, e, map[]).value, s.w, s.row, map[]) == Eval(e, s.w, Converted, s.doc, map[]) <==> NullIfMissing(inner) == last
  {
    RebindingIsCaught(a, b, outer, inner, last, s.plain, map[]);
    var innermost := MapOne(last, b, Variable(a));
    var middle := MapOne(inner, a, innermost);
    MapOneMeans(last, b, Variable(a), s.w, s.doc, map[a := inner], inner);
    assert (map[a := outer])[a := inner] == map[a := inner];
    MapOneMeans(inner, a, innermost, s.w, s.doc, map[a := outer], Arr([NullIfMissing(inner)]));
    MapOneMeans(outer, a, middle, s.w, s.doc, map[], Arr([Arr([NullIfMissing(inner)])]));

    var scope1: Scope := map[a := Param(0)];
    var scope2: Scope := map[a := Param(1)];
    assert |scope1| == 1 && scope1[a := Param(1)] == scope2 && |scope2| == 1;
    var scope0: Scope := map[];
    assert scope0[a := Param(|scope0|)] == scope1;
    var t := ArrayMap(Bound(Arr([last])), 1, Param(1));
    MapOneCompiles(last, b, Variable(a), s, scope2, Param(1));
    var u := ArrayMap(Bound(Arr([inner])), 1, t);
    MapOneCompiles(inner, a, innermost, s, scope1, t);
    MapOneCompiles(outer, a, middle, s, scope0, u);

    var p0: Params := map[0 := outer];
    var p1: Params := map[0 := outer, 1 := inner];
    MapOneComputes(last, 1, Param(1), s.w, s.row, p1, last);
    assert p0[1 := inner] == p1;
    MapOneComputes(inner, 1, t, s.w, s.row, p0, Arr([last]));
    var none: Params := map[];
    assert none[0 := outer] == p0;
    MapOneComputes(outer, 0, u, s.w, s.row, none, Arr([Arr([last])]));
  }

  /**
   * A binding MongoDB refuses goes unnoticed when the body does not read it: for every
   * such `$let` whose bindings compile, the term is that of the `$let` without the failure.
   */
  lemma UnusedVariableHidesFailure(e: Expr, i: nat, answer: Value, s: Setting)
    requires e.Let? && i < |e.vars| && e.vars[i].name !in Reads(e.body)
    requires Eval(e.vars[i].value, s.w, Converted, s.doc, map[]).None? && Compiled(s, e, map[]).Success?
    ensures Eval(e, s.w, Converted, s.doc, map[]).None?
    ensures Compiled(s, e, map[]) == Compiled(s, WithBinding(e, i, Literal(answer)), map[])
  {
    RefusedBindingRefuses(e.vars, i, s.w, s.doc, map[]);
    LetDropsUnread(e, i, Literal(answer), s.reg, s.plain, map[]);
  }

  /** `1 / 0`, which MongoDB refuses and the compiler accepts. */
  function DivisionByZero(): Expr {
    Strict(Divide, [Literal(Int(1)), Literal(Int(0))])
  }

  lemma PairMeans(a: Expr, b: Expr, x: Value, y: Value, s: Setting)
    requires Eval(a, s.w, Converted, s.doc, map[]) == Some(x) && Eval(b, s.w, Converted, s.doc, map[]) == Some(y)
    ensures EvalAll([a, b], s.w, Converted, s.doc, map[]) == Some([x, y])
  {
    assert [a, b][1..] == [b] && [b][1..] == [];
    assert EvalAll([b], s.w, Converted, s.doc, map[]) == Some([y] + []);
    assert [x] + ([y] + []) == [x, y];
  }

  lemma PairCompiles(a: Expr, b: Expr, t: Term, u: Term, s: Setting)
    requires Compiled(s, a, map[]) == Success(t) && Compiled(s, b, map[]) == Success(u)
    ensures CompileAll([a, b], s.reg, s.plain, map[]) == Success([t, u])
  {
    assert [a, b][1..] == [b] && [b][1..] == [];
    assert CompileAll([b], s.reg, s.plain, map[]) == Success([u] + []);
    assert [t] + ([u] + []) == [t, u];
  }

  lemma DivisionIsRefused(s: Setting)
    ensures Eval(DivisionByZero(), s.w, Converted, s.doc, map[]).None? && Compiled(s, DivisionByZero(), map[]).Success?
  {
    PairMeans(Literal(Int(1)), Literal(Int(0)), Int(1), Int(0), s);
    PairCompiles(Literal(Int(1)), Literal(Int(0)), Bound(Int(1)), Bound(Int(0)), s);
  }

  /** For instance, whatever the body answers: `$let: {vars: {x: 1 / 0}, in: answer}`. */
  lemma DivisionByZeroHidden(name: string, answer: Value, s: Setting)
    ensures var e := Let([Binding(name, DivisionByZero())], Literal(answer));
            Eval(e, s.w, Converted, s.doc, map[]).None? && Compiled(s, e, map[]) == Success(Bound(answer))
  {
    var bindings := [Binding(name, DivisionByZero())];
    DivisionIsRefused(s);
    RefusedBindingRefuses(bindings, 0, s.w, s.doc, map[]);
    assert bindings[1..] == [];
    assert CompileBindings([], s.reg, s.plain, map[]).Success?;
    assert CompileBindings(bindings, s.reg, s.plain, map[]).Success?;
    var terms := CompileBindings(bindings, s.reg, s.plain, map[]).value;
    assert Compile(Literal(answer), s.reg, s.plain, BindAll(Names(bindings), terms, map[])) == Success(Bound(answer));
  }

  /**
   * MongoDB refuses a `$switch` none of whose branches applies and which has no
   * default; the compiled term answers with a missing value. For every `$switch`
   * without a default whose tests have values, that is exactly when it happens.
   */
  lemma UnmatchedSwitchAnswers(e: Expr, s: Setting)
    requires Valid(s) && e.Switch? && e.otherwise.None? && Uncaptured(e, s.plain, map[])
    requires Compiled(s, e, map[]).Success? && EvalSwitch(e.branches, s.w, Rejected, s.doc, map[]).Some?
    ensures var meant := Eval(e, s.w, Converted, s.doc, map[]);
            && (meant.None? <==> EvalSwitch(e.branches, s.w, Converted, s.doc, map[]) == Some(None))
            && EvalTerm(Compiled(s, e, map[]).value, s.w, s.row, map[]) == Some(if meant.None? then Absent else meant.value)
  {
    var none: Scope := map[];
    OpenScope(s, map[], none, map[], map[]);
    CorrectBranches(e.branches, Bound(Absent), s, map[], none, map[], map[]);
    SwitchConverted(e.branches, s.w, s.doc, map[]);
  }

  // Missing values.

  /** An array literal whose elements compile right is right exactly when none of them is missing. */
  lemma ArrayLiteralExactly(args: seq<Expr>, s: Setting, values: seq<Value>)
    requires Valid(s) && UncapturedAll(args, s.plain, map[]) && WellFormedAll(args, s.reg, {})
    requires EvalAll(args, s.w, Rejected, s.doc, map[]) == Some(values)
    ensures var e := Strict(MakeArray, args);
            && Compiled(s, e, map[]).Success?
            && EvalTerm(Compiled(s, e, map[]).value, s.w, s.row, map[]) == Some(Arr(values))
            && (EvalTerm(Compiled(s, e, map[]).value, s.w, s.row, map[]) == Eval(e, s.w, Converted, s.doc, map[]) <==> Absent !in values)
  {
    ArrayComputes(args, s, values);
    ArrayMeans(args, s, values);
    FilledIsSame(values);
  }

  lemma EmptyScope(s: Setting)
    requires Valid(s)
    ensures Scoped(s, map[], map[], map[], map[])
  {
    OpenScope(s, map[], map[], map[], map[]);
  }

  lemma ArrayComputes(args: seq<Expr>, s: Setting, values: seq<Value>)
    requires Valid(s) && UncapturedAll(args, s.plain, map[]) && WellFormedAll(args, s.reg, {})
    requires EvalAll(args, s.w, Rejected, s.doc, map[]) == Some(values)
    ensures Compiled(s, Strict(MakeArray, args), map[]).Success?
    ensures EvalTerm(Compiled(s, Strict(MakeArray, args), map[]).value, s.w, s.row, map[]) == Some(Arr(values))
  {
    EmptyScope(s);
    AllCompile(args, s);
    ArrayUnder(args, s, map[], map[], map[], map[], values);
  }

  lemma AllCompile(args: seq<Expr>, s: Setting)
    requires WellFormedAll(args, s.reg, {})
    ensures CompileAll(args, s.reg, s.plain, map[]).Success?
  {
    var none: Scope := map[];
    assert none.Keys == {};
    CompilesAllWellFormed(args, s.reg, s.plain, none);
  }

  lemma ArrayUnder(args: seq<Expr>, s: Setting, track: Track, vars: Scope, env: map<string, Value>, params: Params, values: seq<Value>)
    requires Scoped(s, track, vars, env, params) && UncapturedAll(args, s.plain, track)
    requires CompileAll(args, s.reg, s.plain, vars).Success? && EvalAll(args, s.w, Rejected, s.doc, env) == Some(values)
    ensures Compiled(s, Strict(MakeArray, args), vars).Success?
    ensures EvalTerm(Compiled(s, Strict(MakeArray, args), vars).value, s.w, s.row, params) == Some(Arr(values))
  {
    CorrectAll(args, s, track, vars, env, params);
    ArrayEvaluates(CompileAll(args, s.reg, s.plain, vars).value, values, s, params);
  }

  lemma ArrayEvaluates(terms: seq<Term>, values: seq<Value>, s: Setting, params: Params)
    requires EvalTerms(terms, s.w, s.row, params) == Some(values)
    ensures EvalTerm(Apply(ArrayLiteral, terms), s.w, s.row, params) == Some(Arr(values))
  {
  }

  lemma ArrayMeans(args: seq<Expr>, s: Setting, values: seq<Value>)
    requires EvalAll(args, s.w, Rejected, s.doc, map[]) == Some(values)
    ensures Eval(Strict(MakeArray, args), s.w, Converted, s.doc, map[]) == Some(Arr(Filled(values)))
  {
    AllConverted(args, s.w, s.doc, map[]);
  }

  /** A `$map` whose input and body compile right is right exactly when no element's result is missing. */
  lemma MapExactly(e: Expr, s: Setting, items: seq<Value>, results: seq<Value>)
    requires e.MapOver? && Valid(s) && Uncaptured(e, s.plain, map[]) && WellFormed(e, s.reg, {})
    requires Eval(e.input, s.w, Rejected, s.doc, map[]) == Some(Arr(items))
    requires EvalEach(e.body, e.alias, items, s.w, Rejected, s.doc, map[]) == Some(results)
    ensures Compiled(s, e, map[]).Success?
    ensures EvalTerm(Compiled(s, e, map[]).value, s.w, s.row, map[]) == Some(Arr(results))
    ensures EvalTerm(Compiled(s, e, map[]).value, s.w, s.row, map[]) == Eval(e, s.w, Converted, s.doc, map[]) <==> Absent !in results
  {
    MapComputes(e, s, items, results);
    MapMeans(e, s, map[], items, results);
    FilledIsSame(results);
  }

  lemma MapComputes(e: Expr, s: Setting, items: seq<Value>, results: seq<Value>)
    requires e.MapOver? && Valid(s) && Uncaptured(e, s.plain, map[]) && WellFormed(e, s.reg, {})
    requires Eval(e.input, s.w, Rejected, s.doc, map[]) == Some(Arr(items))
    requires EvalEach(e.body, e.alias, items, s.w, Rejected, s.doc, map[]) == Some(results)
    ensures Compiled(s, e, map[]).Success?
    ensures EvalTerm(Compiled(s, e, map[]).value, s.w, s.row, map[]) == Some(Arr(results))
  {
    EmptyScope(s);
    var none: Scope := map[];
    assert none.Keys == {};
    CompilesExactlyWellFormed(e, s.reg, s.plain, none);
    MapUnder(e, s, map[], none, map[], map[], items, results);
  }

  lemma MapUnder(e: Expr, s: Setting, track: Track, vars: Scope, env: map<string, Value>, params: Params, items: seq<Value>, results: seq<Value>)
    requires e.MapOver? && Scoped(s, track, vars, env, params) && Uncaptured(e, s.plain, track) && Compiled(s, e, vars).Success?
    requires Eval(e.input, s.w, Rejected, s.doc, env) == Some(Arr(items))
    requires EvalEach(e.body, e.alias, items, s.w, Rejected, s.doc, env) == Some(results)
    ensures EvalTerm(Compiled(s, e, vars).value, s.w, s.row, params) == Some(Arr(results))
  {
    var source, closure := MapParts(e, s.reg, s.plain, vars);
    CompileCorrect(e.input, s, track, vars, env, params);
    CorrectEach(e.body, e.alias, items, s, track, vars, env, params);
    MapEvaluates(source, |vars|, closure, items, results, s, params);
  }

  lemma MapMeans(e: Expr, s: Setting, env: map<string, Value>, items: seq<Value>, results: seq<Value>)
    requires e.MapOver? && Eval(e.input, s.w, Rejected, s.doc, env) == Some(Arr(items))
    requires EvalEach(e.body, e.alias, items, s.w, Rejected, s.doc, env) == Some(results)
    ensures Eval(e, s.w, Converted, s.doc, env) == Some(Arr(Filled(results)))
  {
    CompleteIsConverted(e.input, s.w, s.doc, env);
    EachConverted(e.body, e.alias, items, s.w, s.doc, env);
  }

  predicate Distinctly(names: seq<string>) {
    forall i, j :: 0 <= i < j < |names| ==> names[i] != names[j]
  }

  /** An object literal whose fields compile right is right exactly when none of them is missing. */
  lemma ObjectExactly(fields: seq<Binding>, s: Setting, values: seq<Value>)
    requires Valid(s) && UncapturedBindings(fields, s.plain, map[]) && WellFormedBindings(fields, s.reg, {})
    requires Distinctly(Names(fields)) && EvalBindings(fields, s.w, Rejected, s.doc, map[]) == Some(values)
    ensures var e := Document(fields);
            && Compiled(s, e, map[]).Success?
            && EvalTerm(Compiled(s, e, map[]).value, s.w, s.row, map[]) == Some(Obj(MakeObject(Names(fields), values)))
            && (EvalTerm(Compiled(s, e, map[]).value, s.w, s.row, map[]) == Eval(e, s.w, Converted, s.doc, map[]) <==> Absent !in values)
  {
    ObjectComputes(fields, s, values);
    ObjectMeans(fields, s, values);
    PresentExactly(Names(fields), values);
  }

  lemma ObjectComputes(fields: seq<Binding>, s: Setting, values: seq<Value>)
    requires Valid(s) && UncapturedBindings(fields, s.plain, map[]) && WellFormedBindings(fields, s.reg, {})
    requires EvalBindings(fields, s.w, Rejected, s.doc, map[]) == Some(values)
    ensures Compiled(s, Document(fields), map[]).Success?
    ensures EvalTerm(Compiled(s, Document(fields), map[]).value, s.w, s.row, map[]) == Some(Obj(MakeObject(Names(fields), values)))
  {
    EmptyScope(s);
    FieldsCompile(fields, s);
    ObjectUnder(fields, s, map[], map[], map[], map[], values);
  }

  lemma FieldsCompile(fields: seq<Binding>, s: Setting)
    requires WellFormedBindings(fields, s.reg, {})
    ensures CompileBindings(fields, s.reg, s.plain, map[]).Success?
  {
    var none: Scope := map[];
    assert none.Keys == {};
    CompilesBindingsWellFormed(fields, s.reg, s.plain, none);
  }

  lemma ObjectUnder(fields: seq<Binding>, s: Setting, track: Track, vars: Scope, env: map<string, Value>, params: Params, values: seq<Value>)
    requires Scoped(s, track, vars, env, params) && UncapturedBindings(fields, s.plain, track)
    requires CompileBindings(fields, s.reg, s.plain, vars).Success? && EvalBindings(fields, s.w, Rejected, s.doc, env) == Some(values)
    ensures Compiled(s, Document(fields), vars).Success?
    ensures EvalTerm(Compiled(s, Document(fields), vars).value, s.w, s.row, params) == Some(Obj(MakeObject(Names(fields), values)))
  {
    CorrectBindings(fields, s, track, vars, env, params);
    DocumentEvaluates(Names(fields), CompileBindings(fields, s.reg, s.plain, vars).value, values, s, params);
  }

  lemma ObjectMeans(fields: seq<Binding>, s: Setting, values: seq<Value>)
    requires EvalBindings(fields, s.w, Rejected, s.doc, map[]) == Some(values)
    ensures Eval(Document(fields), s.w, Converted, s.doc, map[]) == Some(Obj(PresentFields(MakeObject(Names(fields), values))))
  {
    BindingsConverted(fields, s.w, s.doc, map[]);
  }

  lemma PresentExactly(names: seq<string>, values: seq<Value>)
    requires |names| == |values| && Distinctly(names)
    ensures PresentFields(MakeObject(names, values)) == MakeObject(names, values) <==> Absent !in values
  {
    if Absent in values {
      var i :| 0 <= i < |values| && values[i] == Absent;
      ObjectAt(names, values, i);
      assert names[i] !in PresentFields(MakeObject(names, values));
    } else {
      AllPresent(names, values);
    }
  }

  lemma {:induction false} ObjectAt(names: seq<string>, values: seq<Value>, i: nat)
    requires |names| == |values| && Distinctly(names) && i < |names|
    ensures names[i] in MakeObject(names, values) && MakeObject(names, values)[names[i]] == values[i]
  {
    if i < |names| - 1 {
      ObjectAt(names[..|names| - 1], values[..|names| - 1], i);
    }
  }

  /** It compiles, and computes something else than MongoDB answers. */
  predicate ComputesOtherwise(e: Expr, s: Setting) {
    && Compiled(s, e, map[]).Success?
    && EvalTerm(Compiled(s, e, map[]).value, s.w, s.row, map[]) != Eval(e, s.w, Converted, s.doc, map[])
  }

  /** A field the document does not have differs in each of the three. */
  lemma MissingFieldDiffers(path: seq<string>, alias: string, name: string, element: Value, s: Setting)
    requires Valid(s) && KeepsIdentity(path, s.plain) && ReadPath(s.w, s.doc, path) == Absent
    ensures ComputesOtherwise(Strict(MakeArray, [Field(path)]), s)
    ensures ComputesOtherwise(MapOne(element, alias, Field(path)), s)
    ensures ComputesOtherwise(Document([Binding(name, Field(path))]), s)
  {
    OneMissing(path, s);
    ArrayLiteralExactly([Field(path)], s, [Absent]);
    MapOneMissing(path, alias, element, s);
    OneFieldMissing(path, name, s);
    ObjectExactly([Binding(name, Field(path))], s, [Absent]);
  }

  lemma OneEvaluates(e: Expr, v: Value, s: Setting, m: Missing, env: map<string, Value>)
    requires Eval(e, s.w, m, s.doc, env) == Some(v)
    ensures EvalAll([e], s.w, m, s.doc, env) == Some([v])
  {
    assert [e][1..] == [] && [v] + [] == [v];
    assert EvalAll([], s.w, m, s.doc, env) == Some([]);
  }

  lemma OneIsFine(e: Expr, s: Setting, track: Track, scope: set<string>)
    requires Uncaptured(e, s.plain, track) && WellFormed(e, s.reg, scope)
    ensures UncapturedAll([e], s.plain, track) && WellFormedAll([e], s.reg, scope)
  {
    assert [e][1..] == [];
    assert UncapturedAll([], s.plain, track) && WellFormedAll([], s.reg, scope);
  }

  lemma OneMissing(path: seq<string>, s: Setting)
    requires KeepsIdentity(path, s.plain) && ReadPath(s.w, s.doc, path) == Absent
    ensures UncapturedAll([Field(path)], s.plain, map[]) && WellFormedAll([Field(path)], s.reg, {})
    ensures EvalAll([Field(path)], s.w, Rejected, s.doc, map[]) == Some([Absent])
  {
    OneIsFine(Field(path), s, map[], {});
    OneEvaluates(Field(path), Absent, s, Rejected, map[]);
  }

  lemma OneFieldEvaluates(b: Binding, v: Value, s: Setting, m: Missing, env: map<string, Value>)
    requires Eval(b.value, s.w, m, s.doc, env) == Some(v)
    ensures EvalBindings([b], s.w, m, s.doc, env) == Some([v])
  {
    assert [b][1..] == [] && [v] + [] == [v];
    assert EvalBindings([], s.w, m, s.doc, env) == Some([]);
  }

  lemma OneFieldIsFine(b: Binding, s: Setting, track: Track, scope: set<string>)
    requires Uncaptured(b.value, s.plain, track) && WellFormed(b.value, s.reg, scope)
    ensures UncapturedBindings([b], s.plain, track) && WellFormedBindings([b], s.reg, scope)
  {
    assert [b][1..] == [];
    assert UncapturedBindings([], s.plain, track) && WellFormedBindings([], s.reg, scope);
  }

  lemma OneFieldMissing(path: seq<string>, name: string, s: Setting)
    requires KeepsIdentity(path, s.plain) && ReadPath(s.w, s.doc, path) == Absent
    ensures var bindings := [Binding(name, Field(path))];
            && UncapturedBindings(bindings, s.plain, map[]) && WellFormedBindings(bindings, s.reg, {})
            && EvalBindings(bindings, s.w, Rejected, s.doc, map[]) == Some([Absent])
  {
    OneFieldIsFine(Binding(name, Field(path)), s, map[], {});
    OneFieldEvaluates(Binding(name, Field(path)), Absent, s, Rejected, map[]);
  }

  lemma EachMissing(path: seq<string>, alias: string, element: Value, s: Setting)
    requires ReadPath(s.w, s.doc, path) == Absent
    ensures EvalEach(Field(path), alias, [element], s.w, Rejected, s.doc, map[]) == Some([Absent])
  {
    assert EvalEach(Field(path), alias, [], s.w, Rejected, s.doc, map[]) == Some([]);
    assert [element][1..] == [] && [Absent] + [] == [Absent];
  }

  lemma MapOneIsFine(path: seq<string>, alias: string, element: Value, s: Setting)
    requires KeepsIdentity(path, s.plain)
    ensures Uncaptured(MapOne(element, alias, Field(path)), s.plain, map[]) && WellFormed(MapOne(element, alias, Field(path)), s.reg, {})
  {
    MapOneUncaptured(element, alias, Field(path), s.plain, map[]);
  }

  lemma MapOneMissing(path: seq<string>, alias: string, element: Value, s: Setting)
    requires Valid(s) && KeepsIdentity(path, s.plain) && ReadPath(s.w, s.doc, path) == Absent
    ensures ComputesOtherwise(MapOne(element, alias, Field(path)), s)
  {
    MapOneIsFine(path, alias, element, s);
    EachMissing(path, alias, element, s);
    MapExactly(MapOne(element, alias, Field(path)), s, [element], [Absent]);
  }

  // The identity.

  /**
   * Over stored rows `$_id` and `$id` both compute a record id: never the `_id` of the
   * document, and never nothing, which is what MongoDB finds at `id`.
   */
  lemma IdentityReadsRecord(s: Setting)
    requires Valid(s) && !s.plain
    ensures Eval(Field(["_id"]), s.w, Converted, s.doc, map[]) == Some(s.doc["_id"])
    ensures Eval(Field(["id"]), s.w, Converted, s.doc, map[]) == Some(Absent)
    ensures Compiled(s, Field(["_id"]), map[]) == Compiled(s, Field(["id"]), map[]) == Success(Idiom(["id"]))
    ensures EvalTerm(Idiom(["id"]), s.w, s.row, map[]) == Some(RecordOf(s.doc["_id"]))
    ensures RecordOf(s.doc["_id"]) != s.doc["_id"] && RecordOf(s.doc["_id"]) != Absent
  {
  }

  /** Comparing the identity with its own value: MongoDB finds them equal, the server does not. */
  lemma IdentityEqualsNothing(s: Setting)
    requires Valid(s) && !s.plain && "$eq" in s.reg && s.reg["$eq"].arity == Some(2)
    requires forall a, b :: s.w.mongo("$eq", [a, b]) == Some(Bool(a == b))
    ensures var e := Strict(Call("$eq"), [Field(["_id"]), Literal(s.doc["_id"])]);
            && Eval(e, s.w, Converted, s.doc, map[]) == Some(Bool(true))
            && Compiled(s, e, map[]).Success?
            && EvalTerm(Compiled(s, e, map[]).value, s.w, s.row, map[]) == Some(Bool(false))
  {
    IdentityReadsRecord(s);
    var id, record := s.doc["_id"], RecordOf(s.doc["_id"]);
    PairMeans(Field(["_id"]), Literal(id), id, id, s);
    PairCompiles(Field(["_id"]), Literal(id), Idiom(["id"]), Bound(id), s);
    EvalTermsIs([Idiom(["id"]), Bound(id)], [record, id], s.w, s.row, map[]);
    assert s.w.mongo("$eq", [record, id]) == Some(Bool(record == id));
  }
}
