/**
 * Compiler correctness: for every expression in which no closure captures a variable
 * its body reads, every document and every environment, the compiled term computes
 * what the expression means. `$let` by substitution and the numbering of closure
 * parameters are where the work is.
 */
module ExpressionCorrectness {
  import opened Values
  import opened Sequences
  import opened ExpressionSource
  import opened SurrealTerms
  import opened ExpressionCompiler
  import opened ExpressionOperators
  import opened MissingValues
  import opened VariableCapture

  /** A document, the stored row it is read from, and the servers around them. */
  datatype Setting = Setting(w: World, reg: Registry, doc: map<string, Value>, row: map<string, Value>, plain: bool)

  /** The row SurrealDB stores for a document: column `id` holds its record id. */
  function StoredRow(doc: map<string, Value>): map<string, Value> {
    (doc - {"_id"}) + (if "_id" in doc then map["id" := RecordOf(doc["_id"])] else map[])
  }

  /** Rows already reshaped are the documents; stored rows carry a record id as `id`. */
  ghost predicate Stores(s: Setting) {
    if s.plain then s.row == s.doc
    else
      && s.row == StoredRow(s.doc)
      && "id" !in s.doc
      && "_id" in s.doc && s.doc["_id"] != Absent
      && (forall rest :: rest != [] ==> s.w.walk(s.doc["_id"], rest) == Absent)
  }

  ghost predicate Valid(s: Setting) {
    TotalOrder(s.w.leq) && Agrees(s.w, s.reg) && Stores(s)
  }

  ghost predicate ModelsAt(s: Setting, vars: Scope, env: map<string, Value>, params: Params, n: string)
    requires n in vars && n in env
  {
    EvalTerm(vars[n], s.w, s.row, params) == Some(env[n])
  }

  /** Each live variable's term evaluates to the variable's value. */
  ghost predicate Models(s: Setting, track: Track, vars: Scope, env: map<string, Value>, params: Params) {
    && track.Keys == vars.Keys == env.Keys
    && forall n {:trigger ModelsAt(s, vars, env, params, n)} :: n in vars && track[n].live ==> ModelsAt(s, vars, env, params, n)
  }

  /** A marker term; see `Scoped`. */
  predicate Opened(s: Setting, n: nat) {
    true
  }

  /**
   * The scoping invariant. Its quantified facts are kept behind a trigger that
   * only `OpenScope` mentions, so that the case proofs do not have to carry them.
   */
  ghost predicate Scoped(s: Setting, track: Track, vars: Scope, env: map<string, Value>, params: Params) {
    forall n: nat {:trigger Opened(s, n)} ::
      Opened(s, n) ==> Valid(s) && Tracks(track, vars) && Models(s, track, vars, env, params)
  }

  lemma OpenScope(s: Setting, track: Track, vars: Scope, env: map<string, Value>, params: Params)
    ensures Scoped(s, track, vars, env, params) <==> Valid(s) && Tracks(track, vars) && Models(s, track, vars, env, params)
  {
    assert Opened(s, 0);
  }

  // Entering a scope.

  /** A path beginning with `id` reads nothing, whatever the record id leads to. */
  predicate LeadsNowhere(s: Setting, path: seq<string>)
    requires "_id" in s.doc
  {
    |path| > 1 && s.w.walk(RecordOf(s.doc["_id"]), path[1..]) == Absent
  }

  /**
   * A path reads from the row what it reads from the document, exactly unless the row
   * is stored and the path is `_id`, which reads a record id, or begins with `id` and
   * finds one there or something through it.
   */
  lemma FieldReads(s: Setting, path: seq<string>)
    requires Stores(s)
    ensures ReadPath(s.w, s.row, ColumnPath(path, s.plain)) == ReadPath(s.w, s.doc, path)
       <==> s.plain || (path != ["_id"] && (path != [] && path[0] == "id" ==> LeadsNowhere(s, path)))
  {
    if !s.plain && path != [] && path[0] in {"_id", "id"} {
      assert |path| > 1 ==> path[1..] != [];
      assert |path| == 1 ==> path == [path[0]];
    }
  }

  /** Binding parameter `k` leaves every outer variable that stays live as it was. */
  lemma EnterModels(s: Setting, track: Track, vars: Scope, env: map<string, Value>, params: Params, alias: string, k: nat, x: Value)
    requires Models(s, track, vars, env, params) && Tracks(track, vars)
    ensures Models(s, Entered(track, alias, k), vars[alias := Param(k)], env[alias := x], params[k := x])
  {
    var inner, scope := Entered(track, alias, k), vars[alias := Param(k)];
    forall n | n in scope && inner[n].live
      ensures ModelsAt(s, scope, env[alias := x], params[k := x], n)
    {
      if n != alias {
        assert TrackedAt(track, vars, n) && ModelsAt(s, vars, env, params, n);
        OnlyFreeMatters(vars[n], s.w, s.row, params, params[k := x]);
      }
    }
  }

  lemma EnterClosure(s: Setting, track: Track, vars: Scope, env: map<string, Value>, params: Params, alias: string, k: nat, x: Value)
    requires Scoped(s, track, vars, env, params)
    ensures Scoped(s, Entered(track, alias, k), vars[alias := Param(k)], env[alias := x], params[k := x])
  {
    OpenScope(s, track, vars, env, params);
    EnteredTracks(track, vars, alias, k);
    EnterModels(s, track, vars, env, params, alias, k, x);
    OpenScope(s, Entered(track, alias, k), vars[alias := Param(k)], env[alias := x], params[k := x]);
  }

  lemma EnterBoth(s: Setting, track: Track, vars: Scope, env: map<string, Value>, params: Params, a: string, b: string, k: nat, x: Value, y: Value)
    requires Scoped(s, track, vars, env, params)
    ensures Scoped(s, EnteredTwo(track, a, b, k), vars[a := Param(k)][b := Param(k + 1)], env[a := x][b := y], params[k := x][k + 1 := y])
  {
    EnterClosure(s, track, vars, env, params, a, k, x);
    EnterClosure(s, Entered(track, a, k), vars[a := Param(k)], env[a := x], params[k := x], b, k + 1, y);
  }

  /** Scope and track have the same size, so the parameters are those the track expects. */
  lemma ScopedSize(s: Setting, track: Track, vars: Scope, env: map<string, Value>, params: Params)
    requires Scoped(s, track, vars, env, params)
    ensures |track| == |vars|
  {
    OpenScope(s, track, vars, env, params);
    SameSize(track, vars);
  }

  /** Of terms bound at once, the live ones have the values bound with them. */
  ghost predicate LiveModel(tracked: seq<Tracked>, terms: seq<Term>, values: seq<Value>, s: Setting, params: Params) {
    && |tracked| == |terms| == |values|
    && (terms != [] ==>
          && (tracked[0].live ==> EvalTerm(terms[0], s.w, s.row, params) == Some(values[0]))
          && LiveModel(tracked[1..], terms[1..], values[1..], s, params))
  }

  lemma LiveCons(t: Tracked, term: Term, value: Value, tracked: seq<Tracked>, terms: seq<Term>, values: seq<Value>, s: Setting, params: Params)
    requires t.live ==> EvalTerm(term, s.w, s.row, params) == Some(value)
    requires LiveModel(tracked, terms, values, s, params)
    ensures LiveModel([t] + tracked, [term] + terms, [value] + values, s, params)
  {
    assert ([t] + tracked)[1..] == tracked && ([term] + terms)[1..] == terms && ([value] + values)[1..] == values;
  }

  lemma {:induction false} BindAllModels(names: seq<string>, tracked: seq<Tracked>, terms: seq<Term>, values: seq<Value>,
                                         s: Setting, track: Track, vars: Scope, env: map<string, Value>, params: Params)
    requires |names| == |tracked| && LiveModel(tracked, terms, values, s, params)
    requires Models(s, track, vars, env, params)
    ensures Models(s, BindAll(names, tracked, track), BindAll(names, terms, vars), BindAll(names, values, env), params)
  {
    if names != [] {
      var track', vars', env' := track[names[0] := tracked[0]], vars[names[0] := terms[0]], env[names[0] := values[0]];
      forall n | n in vars' && track'[n].live
        ensures ModelsAt(s, vars', env', params, n)
      {
        if n != names[0] {
          assert ModelsAt(s, vars, env, params, n);
        }
      }
      BindAllModels(names[1..], tracked[1..], terms[1..], values[1..], s, track', vars', env', params);
    }
  }

  /**
   * A `$let` may rebind: its terms use the outer scope's parameters only. A binding in
   * which a variable was captured may be off, and is then not live.
   */
  lemma EnterLet(s: Setting, bindings: seq<Binding>, terms: seq<Term>, values: seq<Value>,
                 track: Track, vars: Scope, env: map<string, Value>, params: Params)
    requires Scoped(s, track, vars, env, params)
    requires CompileBindings(bindings, s.reg, s.plain, vars) == Success(terms)
    requires LiveModel(TrackBindings(bindings, track), terms, values, s, params)
    ensures Scoped(s, EnteredLet(bindings, track), BindAll(Names(bindings), terms, vars), BindAll(Names(bindings), values, env), params)
  {
    OpenScope(s, track, vars, env, params);
    var names := Names(bindings);
    CompiledUsesBindings(bindings, s.reg, s.plain, vars, track);
    LetTracks(bindings, terms, track, vars);
    BindAllModels(names, TrackBindings(bindings, track), terms, values, s, track, vars, env, params);
    OpenScope(s, EnteredLet(bindings, track), BindAll(names, terms, vars), BindAll(names, values, env), params);
  }

  // The theorem, case by case.

  function Compiled(s: Setting, e: Expr, vars: Scope): Result<Term, CompileError> {
    Compile(e, s.reg, s.plain, vars)
  }

  /** `e` is in the theorem's scope: well scoped, uncaptured, compiled and defined. */
  ghost predicate Ready(e: Expr, s: Setting, track: Track, vars: Scope, env: map<string, Value>, params: Params) {
    var ready :=
      && Scoped(s, track, vars, env, params) && Uncaptured(e, s.plain, track)
      && Compiled(s, e, vars).Success? && Eval(e, s.w, Rejected, s.doc, env).Some?;
    ready
  }

  ghost predicate Correct(e: Expr, s: Setting, vars: Scope, env: map<string, Value>, params: Params) {
    var correct :=
      Compiled(s, e, vars).Success? && EvalTerm(Compiled(s, e, vars).value, s.w, s.row, params) == Eval(e, s.w, Rejected, s.doc, env);
    correct
  }

  /** The same two notions for a closure body run over a list of elements. */
  ghost predicate ReadyEach(body: Expr, alias: string, xs: seq<Value>, s: Setting, track: Track, vars: Scope, env: map<string, Value>, params: Params) {
    var ready :=
      && Scoped(s, track, vars, env, params) && UncapturedUnder(body, alias, s.plain, track)
      && Compiled(s, body, vars[alias := Param(|vars|)]).Success?
      && EvalEach(body, alias, xs, s.w, Rejected, s.doc, env).Some?;
    ready
  }

  ghost predicate CorrectOnEach(body: Expr, alias: string, xs: seq<Value>, s: Setting, vars: Scope, env: map<string, Value>, params: Params) {
    var compiled := Compiled(s, body, vars[alias := Param(|vars|)]);
    var correct :=
      && compiled.Success?
      && EvalClosure(compiled.value, |vars|, xs, s.w, s.row, params) == EvalEach(body, alias, xs, s.w, Rejected, s.doc, env);
    correct
  }

  /** And for a fold body. */
  ghost predicate ReadyFold(body: Expr, acc: Value, xs: seq<Value>, s: Setting, track: Track, vars: Scope, env: map<string, Value>, params: Params) {
    var ready :=
      && Scoped(s, track, vars, env, params) && UncapturedUnderTwo(body, "value", "this", s.plain, track)
      && Compiled(s, body, vars["value" := Param(|vars|)]["this" := Param(|vars| + 1)]).Success?
      && EvalFold(body, acc, xs, s.w, Rejected, s.doc, env).Some?;
    ready
  }

  ghost predicate CorrectOnFold(body: Expr, acc: Value, xs: seq<Value>, s: Setting, vars: Scope, env: map<string, Value>, params: Params) {
    var compiled := Compiled(s, body, vars["value" := Param(|vars|)]["this" := Param(|vars| + 1)]);
    var correct :=
      && compiled.Success?
      && EvalReduce(compiled.value, |vars|, |vars| + 1, acc, xs, s.w, s.row, params) == EvalFold(body, acc, xs, s.w, Rejected, s.doc, env);
    correct
  }

  /** The compiled term computes what the expression means. */
  lemma {:induction false} CompileCorrect(e: Expr, s: Setting, track: Track, vars: Scope, env: map<string, Value>, params: Params)
    requires Ready(e, s, track, vars, env, params)
    ensures Correct(e, s, vars, env, params)
    decreases e, 1, 0
  {
    match e
    case Field(path) =>
      OpenScope(s, track, vars, env, params);
      FieldReads(s, path);
    case Variable(name) =>
      OpenScope(s, track, vars, env, params);
      if name in vars {
        assert ModelsAt(s, vars, env, params, name);
      }
    case Literal(_) =>
    case Strict(_, _) => CorrectStrict(e, s, track, vars, env, params);
    case Cond(_, _, _) => CorrectCond(e, s, track, vars, env, params);
    case IfNull(args) => CorrectFirst(args, s, track, vars, env, params);
    case Switch(_, _) => CorrectSwitch(e, s, track, vars, env, params);
    case MapOver(_, _, _) => CorrectMap(e, s, track, vars, env, params);
    case FilterOver(_, _, _, _) => CorrectFilter(e, s, track, vars, env, params);
    case Reduce(_, _, _) => CorrectReduce(e, s, track, vars, env, params);
    case Let(_, _) => CorrectLet(e, s, track, vars, env, params);
    case Document(_) => CorrectDocument(e, s, track, vars, env, params);
  }

  lemma {:induction false} CorrectAll(es: seq<Expr>, s: Setting, track: Track, vars: Scope, env: map<string, Value>, params: Params)
    requires Scoped(s, track, vars, env, params) && UncapturedAll(es, s.plain, track)
    requires CompileAll(es, s.reg, s.plain, vars).Success? && EvalAll(es, s.w, Rejected, s.doc, env).Some?
    ensures EvalTerms(CompileAll(es, s.reg, s.plain, vars).value, s.w, s.row, params) == EvalAll(es, s.w, Rejected, s.doc, env)
    decreases es, 0, 0
  {
    if es != [] {
      CompileCorrect(es[0], s, track, vars, env, params);
      CorrectAll(es[1..], s, track, vars, env, params);
    }
  }

  lemma {:induction false} CorrectBindings(bs: seq<Binding>, s: Setting, track: Track, vars: Scope, env: map<string, Value>, params: Params)
    requires Scoped(s, track, vars, env, params) && UncapturedBindings(bs, s.plain, track)
    requires CompileBindings(bs, s.reg, s.plain, vars).Success? && EvalBindings(bs, s.w, Rejected, s.doc, env).Some?
    ensures EvalTerms(CompileBindings(bs, s.reg, s.plain, vars).value, s.w, s.row, params) == EvalBindings(bs, s.w, Rejected, s.doc, env)
    decreases bs, 0, 0
  {
    if bs != [] {
      CompileCorrect(bs[0].value, s, track, vars, env, params);
      CorrectBindings(bs[1..], s, track, vars, env, params);
    }
  }

  /** Of the bindings of a `$let`, those without a captured variable are right. */
  lemma {:induction false} CorrectLive(bs: seq<Binding>, s: Setting, track: Track, vars: Scope, env: map<string, Value>, params: Params)
    requires Scoped(s, track, vars, env, params) && KeepsPathsBindings(bs, s.plain)
    requires CompileBindings(bs, s.reg, s.plain, vars).Success? && EvalBindings(bs, s.w, Rejected, s.doc, env).Some?
    ensures LiveModel(TrackBindings(bs, track), CompileBindings(bs, s.reg, s.plain, vars).value,
                      EvalBindings(bs, s.w, Rejected, s.doc, env).value, s, params)
    decreases bs, 0, 0
  {
    if bs != [] {
      var term, value := HeadBinding(bs, s, track, vars, env);
      if Faithful(bs[0].value, track) {
        CompileCorrect(bs[0].value, s, track, vars, env, params);
      }
      CorrectLive(bs[1..], s, track, vars, env, params);
      LiveCons(Tracked(Uses(bs[0].value, track), Faithful(bs[0].value, track)), term, value,
               TrackBindings(bs[1..], track), CompileBindings(bs[1..], s.reg, s.plain, vars).value,
               EvalBindings(bs[1..], s.w, Rejected, s.doc, env).value, s, params);
    }
  }

  lemma HeadBinding(bs: seq<Binding>, s: Setting, track: Track, vars: Scope, env: map<string, Value>) returns (term: Term, value: Value)
    requires bs != [] && KeepsPathsBindings(bs, s.plain)
    requires CompileBindings(bs, s.reg, s.plain, vars).Success? && EvalBindings(bs, s.w, Rejected, s.doc, env).Some?
    ensures KeepsPaths(bs[0].value, s.plain) && KeepsPathsBindings(bs[1..], s.plain)
    ensures Compiled(s, bs[0].value, vars) == Success(term) && Eval(bs[0].value, s.w, Rejected, s.doc, env) == Some(value)
    ensures CompileBindings(bs[1..], s.reg, s.plain, vars).Success? && EvalBindings(bs[1..], s.w, Rejected, s.doc, env).Some?
    ensures CompileBindings(bs, s.reg, s.plain, vars).value == [term] + CompileBindings(bs[1..], s.reg, s.plain, vars).value
    ensures EvalBindings(bs, s.w, Rejected, s.doc, env).value == [value] + EvalBindings(bs[1..], s.w, Rejected, s.doc, env).value
    ensures TrackBindings(bs, track) == [Tracked(Uses(bs[0].value, track), Faithful(bs[0].value, track))] + TrackBindings(bs[1..], track)
  {
    term := Compiled(s, bs[0].value, vars).value;
    value := Eval(bs[0].value, s.w, Rejected, s.doc, env).value;
  }

  lemma StrictIsReady(e: Expr, s: Setting, track: Track, vars: Scope, env: map<string, Value>, params: Params)
    returns (terms: seq<Term>, values: seq<Value>)
    requires e.Strict? && Ready(e, s, track, vars, env, params)
    ensures UncapturedAll(e.args, s.plain, track) && EvalAll(e.args, s.w, Rejected, s.doc, env) == Some(values)
    ensures CompileAll(e.args, s.reg, s.plain, vars) == Success(terms) && Accepts(s.reg, e.op, |terms|)
    ensures Compiled(s, e, vars) == Success(Build(s.reg, e.op, terms))
    ensures Eval(e, s.w, Rejected, s.doc, env) == Meaning(s.w, e.op, values) && !(e.op.MakeArray? && Absent in values)
  {
    terms := CompileAll(e.args, s.reg, s.plain, vars).value;
    values := StrictMeaning(e, s.w, Rejected, s.doc, env);
  }

  lemma {:induction false} CorrectStrict(e: Expr, s: Setting, track: Track, vars: Scope, env: map<string, Value>, params: Params)
    requires e.Strict? && Ready(e, s, track, vars, env, params)
    ensures Correct(e, s, vars, env, params)
    decreases e, 0, 0
  {
    var terms, values := StrictIsReady(e, s, track, vars, env, params);
    CorrectAll(e.args, s, track, vars, env, params);
    OpenScope(s, track, vars, env, params);
    StrictCorrect(e.op, terms, values, s.reg, s.w, s.row, params);
  }

  lemma TestIsReady(e: Expr, s: Setting, track: Track, vars: Scope, env: map<string, Value>, params: Params)
    requires e.Cond? && Ready(e, s, track, vars, env, params)
    ensures Ready(e.test, s, track, vars, env, params)
  {
  }

  /** The branch a condition takes is as ready as the whole. */
  lemma CondIsReady(e: Expr, s: Setting, track: Track, vars: Scope, env: map<string, Value>, params: Params) returns (branch: Expr)
    requires e.Cond? && Ready(e, s, track, vars, env, params) && Ready(e.test, s, track, vars, env, params)
    ensures Ready(branch, s, track, vars, env, params)
    ensures branch == if s.w.truthy(Eval(e.test, s.w, Rejected, s.doc, env).value) then e.yes else e.no
  {
    branch := if s.w.truthy(Eval(e.test, s.w, Rejected, s.doc, env).value) then e.yes else e.no;
  }

  lemma CondCombines(e: Expr, s: Setting, track: Track, vars: Scope, env: map<string, Value>, params: Params, branch: Expr)
    requires e.Cond? && Ready(e, s, track, vars, env, params)
    requires Correct(e.test, s, vars, env, params) && Correct(branch, s, vars, env, params)
    requires branch == if s.w.truthy(Eval(e.test, s.w, Rejected, s.doc, env).value) then e.yes else e.no
    ensures Correct(e, s, vars, env, params)
  {
  }

  lemma {:induction false} CorrectCond(e: Expr, s: Setting, track: Track, vars: Scope, env: map<string, Value>, params: Params)
    requires e.Cond? && Ready(e, s, track, vars, env, params)
    ensures Correct(e, s, vars, env, params)
    decreases e, 0, 0
  {
    TestIsReady(e, s, track, vars, env, params);
    var branch := CondIsReady(e, s, track, vars, env, params);
    CompileCorrect(e.test, s, track, vars, env, params);
    CompileCorrect(branch, s, track, vars, env, params);
    CondCombines(e, s, track, vars, env, params, branch);
  }

  /** The right fold of `??` answers with the first operand that is not nullish. */
  lemma {:induction false} CorrectFirst(es: seq<Expr>, s: Setting, track: Track, vars: Scope, env: map<string, Value>, params: Params)
    requires es != [] && Scoped(s, track, vars, env, params) && UncapturedAll(es, s.plain, track)
    requires CompileAll(es, s.reg, s.plain, vars).Success? && EvalFirst(es, s.w, Rejected, s.doc, env).Some?
    ensures EvalTerm(CoalesceAll(CompileAll(es, s.reg, s.plain, vars).value), s.w, s.row, params) == EvalFirst(es, s.w, Rejected, s.doc, env)
    decreases es, 0, 0
  {
    CompileCorrect(es[0], s, track, vars, env, params);
    var terms := CompileAll(es, s.reg, s.plain, vars).value;
    assert terms[1..] == CompileAll(es[1..], s.reg, s.plain, vars).value;
    if |es| > 1 && Eval(es[0], s.w, Rejected, s.doc, env).value.Nullish() {
      CorrectFirst(es[1..], s, track, vars, env, params);
    }
  }

  lemma {:induction false} CorrectSwitch(e: Expr, s: Setting, track: Track, vars: Scope, env: map<string, Value>, params: Params)
    requires e.Switch? && Ready(e, s, track, vars, env, params)
    ensures Correct(e, s, vars, env, params)
    decreases e, 0, 0
  {
    var fallback := if e.otherwise.Some? then Compiled(s, e.otherwise.value, vars).value else Bound(Absent);
    CorrectBranches(e.branches, fallback, s, track, vars, env, params);
    if EvalSwitch(e.branches, s.w, Rejected, s.doc, env).value.None? && e.otherwise.Some? {
      CompileCorrect(e.otherwise.value, s, track, vars, env, params);
    }
  }

  /** The right fold of `IF` answers with the first branch that applies, else the fallback. */
  lemma {:induction false} CorrectBranches(bs: seq<Branch>, fallback: Term, s: Setting, track: Track, vars: Scope, env: map<string, Value>, params: Params)
    requires Scoped(s, track, vars, env, params) && UncapturedBranches(bs, s.plain, track)
    requires CompileSwitch(bs, fallback, s.reg, s.plain, vars).Success? && EvalSwitch(bs, s.w, Rejected, s.doc, env).Some?
    ensures EvalTerm(CompileSwitch(bs, fallback, s.reg, s.plain, vars).value, s.w, s.row, params)
         == match EvalSwitch(bs, s.w, Rejected, s.doc, env).value
            case Some(v) => Some(v)
            case None => EvalTerm(fallback, s.w, s.row, params)
    decreases bs, 0, 0
  {
    if bs != [] {
      var rest := CompileSwitch(bs[1..], fallback, s.reg, s.plain, vars).value;
      CorrectBranch(bs[0], rest, s, track, vars, env, params);
      if EvalBranch(bs[0], s.w, Rejected, s.doc, env).value.None? {
        CorrectBranches(bs[1..], fallback, s, track, vars, env, params);
      }
    }
  }

  lemma {:induction false} CorrectBranch(b: Branch, fallback: Term, s: Setting, track: Track, vars: Scope, env: map<string, Value>, params: Params)
    requires Scoped(s, track, vars, env, params) && UncapturedBranch(b, s.plain, track)
    requires CompileBranch(b, fallback, s.reg, s.plain, vars).Success? && EvalBranch(b, s.w, Rejected, s.doc, env).Some?
    ensures EvalTerm(CompileBranch(b, fallback, s.reg, s.plain, vars).value, s.w, s.row, params)
         == match EvalBranch(b, s.w, Rejected, s.doc, env).value
            case Some(v) => Some(v)
            case None => EvalTerm(fallback, s.w, s.row, params)
    decreases b, 0, 0
  {
    CompileCorrect(b.test, s, track, vars, env, params);
    if s.w.truthy(Eval(b.test, s.w, Rejected, s.doc, env).value) {
      CompileCorrect(b.outcome, s, track, vars, env, params);
    }
  }

  lemma {:induction false} CorrectEach(body: Expr, alias: string, xs: seq<Value>, s: Setting, track: Track, vars: Scope, env: map<string, Value>, params: Params)
    requires ReadyEach(body, alias, xs, s, track, vars, env, params)
    ensures CorrectOnEach(body, alias, xs, s, vars, env, params)
    decreases body, 2, |xs|
  {
    if xs != [] {
      EachIsReady(body, alias, xs, s, track, vars, env, params);
      CompileCorrect(body, s, Entered(track, alias, |vars|), vars[alias := Param(|vars|)], env[alias := xs[0]], params[|vars| := xs[0]]);
      CorrectEach(body, alias, xs[1..], s, track, vars, env, params);
    }
  }

  lemma EachIsReady(body: Expr, alias: string, xs: seq<Value>, s: Setting, track: Track, vars: Scope, env: map<string, Value>, params: Params)
    requires xs != [] && ReadyEach(body, alias, xs, s, track, vars, env, params)
    ensures Ready(body, s, Entered(track, alias, |vars|), vars[alias := Param(|vars|)], env[alias := xs[0]], params[|vars| := xs[0]])
    ensures ReadyEach(body, alias, xs[1..], s, track, vars, env, params)
  {
    ScopedSize(s, track, vars, env, params);
    EnterClosure(s, track, vars, env, params, alias, |vars|, xs[0]);
  }

  lemma MapIsReady(e: Expr, s: Setting, track: Track, vars: Scope, env: map<string, Value>, params: Params)
    returns (items: seq<Value>, results: seq<Value>)
    requires e.MapOver? && Ready(e, s, track, vars, env, params)
    ensures Ready(e.input, s, track, vars, env, params) && Eval(e.input, s.w, Rejected, s.doc, env) == Some(Arr(items))
    ensures ReadyEach(e.body, e.alias, items, s, track, vars, env, params)
    ensures EvalEach(e.body, e.alias, items, s.w, Rejected, s.doc, env) == Some(results)
    ensures Eval(e, s.w, Rejected, s.doc, env) == Some(Arr(results))
  {
    items, results := MapMeaning(e, s.w, Rejected, s.doc, env);
    FilledIsSame(results);
    var _, _ := MapParts(e, s.reg, s.plain, vars);
  }

  lemma {:induction false} CorrectMap(e: Expr, s: Setting, track: Track, vars: Scope, env: map<string, Value>, params: Params)
    requires e.MapOver? && Ready(e, s, track, vars, env, params)
    ensures Correct(e, s, vars, env, params)
    decreases e, 0, 0
  {
    var items, results := MapIsReady(e, s, track, vars, env, params);
    CompileCorrect(e.input, s, track, vars, env, params);
    CorrectEach(e.body, e.alias, items, s, track, vars, env, params);
    MapCombines(e, s, vars, env, params, items, results);
  }

  lemma MapCombines(e: Expr, s: Setting, vars: Scope, env: map<string, Value>, params: Params, items: seq<Value>, results: seq<Value>)
    requires e.MapOver? && Compiled(s, e, vars).Success?
    requires Correct(e.input, s, vars, env, params) && Eval(e.input, s.w, Rejected, s.doc, env) == Some(Arr(items))
    requires CorrectOnEach(e.body, e.alias, items, s, vars, env, params)
    requires EvalEach(e.body, e.alias, items, s.w, Rejected, s.doc, env) == Some(results)
    requires Eval(e, s.w, Rejected, s.doc, env) == Some(Arr(results))
    ensures Correct(e, s, vars, env, params)
  {
    var source, closure := MapParts(e, s.reg, s.plain, vars);
    MapEvaluates(source, |vars|, closure, items, results, s, params);
  }

  lemma MapEvaluates(input: Term, param: nat, closure: Term, items: seq<Value>, results: seq<Value>, s: Setting, params: Params)
    requires EvalTerm(input, s.w, s.row, params) == Some(Arr(items))
    requires EvalClosure(closure, param, items, s.w, s.row, params) == Some(results)
    ensures EvalTerm(ArrayMap(input, param, closure), s.w, s.row, params) == Some(Arr(results))
  {
  }

  lemma FilterIsReady(e: Expr, s: Setting, track: Track, vars: Scope, env: map<string, Value>, params: Params) returns (items: seq<Value>)
    requires e.FilterOver? && Ready(e, s, track, vars, env, params)
    ensures Ready(e.input, s, track, vars, env, params) && Eval(e.input, s.w, Rejected, s.doc, env) == Some(Arr(items))
    ensures ReadyEach(e.body, e.alias, items, s, track, vars, env, params)
  {
    items := Eval(e.input, s.w, Rejected, s.doc, env).value.items;
  }

  lemma LimitIsReady(e: Expr, s: Setting, track: Track, vars: Scope, env: map<string, Value>, params: Params)
    requires e.FilterOver? && e.limit.Some? && Ready(e, s, track, vars, env, params)
    ensures Ready(e.limit.value, s, track, vars, env, params)
  {
  }

  lemma {:induction false} CorrectFilter(e: Expr, s: Setting, track: Track, vars: Scope, env: map<string, Value>, params: Params)
    requires e.FilterOver? && Ready(e, s, track, vars, env, params)
    ensures Correct(e, s, vars, env, params)
    decreases e, 0, 0
  {
    var items := FilterIsReady(e, s, track, vars, env, params);
    CompileCorrect(e.input, s, track, vars, env, params);
    CorrectEach(e.body, e.alias, items, s, track, vars, env, params);
    if e.limit.Some? {
      LimitIsReady(e, s, track, vars, env, params);
      CompileCorrect(e.limit.value, s, track, vars, env, params);
    }
    FilterCombines(e, s, vars, env, params, items);
  }

  lemma FilterCombines(e: Expr, s: Setting, vars: Scope, env: map<string, Value>, params: Params, items: seq<Value>)
    requires e.FilterOver? && Compiled(s, e, vars).Success? && Eval(e, s.w, Rejected, s.doc, env).Some?
    requires Correct(e.input, s, vars, env, params) && Eval(e.input, s.w, Rejected, s.doc, env) == Some(Arr(items))
    requires CorrectOnEach(e.body, e.alias, items, s, vars, env, params)
    requires e.limit.Some? ==> Correct(e.limit.value, s, vars, env, params)
    ensures Correct(e, s, vars, env, params)
  {
    var input, closure, limit := FilterParts(e, s.reg, s.plain, vars);
    var _, flags, n := FilterMeaning(e, s.w, Rejected, s.doc, env);
    FilterEvaluates(input, |vars|, closure, items, flags, s, params);
    if e.limit.Some? {
      SliceEvaluates(ArrayFilter(input, |vars|, closure), limit, Keep(s.w.truthy, items, flags), n, s, params);
    }
  }

  lemma FilterEvaluates(input: Term, param: nat, closure: Term, items: seq<Value>, flags: seq<Value>, s: Setting, params: Params)
    requires |flags| == |items|
    requires EvalTerm(input, s.w, s.row, params) == Some(Arr(items))
    requires EvalClosure(closure, param, items, s.w, s.row, params) == Some(flags)
    ensures EvalTerm(ArrayFilter(input, param, closure), s.w, s.row, params) == Some(Arr(Keep(s.w.truthy, items, flags)))
  {
  }

  lemma SliceEvaluates(list: Term, limit: Term, kept: seq<Value>, n: Value, s: Setting, params: Params)
    requires EvalTerm(list, s.w, s.row, params) == Some(Arr(kept))
    requires EvalTerm(limit, s.w, s.row, params) == Some(n) && n.Int? && n.whole > 0
    ensures EvalTerm(Apply(Slice, [list, Bound(Int(0)), limit]), s.w, s.row, params)
         == Some(Arr(FirstOf(kept, n.whole)))
  {
    EvalTermsIs([list, Bound(Int(0)), limit], [Arr(kept), Int(0), n], s.w, s.row, params);
  }

  lemma {:induction false} CorrectFold(body: Expr, acc: Value, xs: seq<Value>, s: Setting, track: Track, vars: Scope, env: map<string, Value>, params: Params)
    requires ReadyFold(body, acc, xs, s, track, vars, env, params)
    ensures CorrectOnFold(body, acc, xs, s, vars, env, params)
    decreases body, 2, |xs|
  {
    if xs != [] {
      var next := CorrectFoldStep(body, acc, xs, s, track, vars, env, params);
      CorrectFold(body, next, xs[1..], s, track, vars, env, params);
      FoldStepCombines(body, acc, xs, s, vars, env, params, next);
    } else {
      FoldEnds(body, acc, s, track, vars, env, params);
    }
  }

  lemma {:induction false} CorrectFoldStep(body: Expr, acc: Value, xs: seq<Value>, s: Setting, track: Track, vars: Scope, env: map<string, Value>, params: Params)
    returns (next: Value)
    requires xs != [] && ReadyFold(body, acc, xs, s, track, vars, env, params)
    ensures Eval(body, s.w, Rejected, s.doc, env["value" := acc]["this" := xs[0]]) == Some(next)
    ensures Correct(body, s, vars["value" := Param(|vars|)]["this" := Param(|vars| + 1)],
                    env["value" := acc]["this" := xs[0]], params[|vars| := acc][|vars| + 1 := xs[0]])
    ensures ReadyFold(body, next, xs[1..], s, track, vars, env, params)
    decreases body, 2, 0
  {
    next := FoldStepMeans(body, acc, xs, s, track, vars, env, params);
    CorrectBody(body, "value", "this", acc, xs[0], s, track, vars, env, params);
  }

  lemma {:induction false} CorrectBody(body: Expr, a: string, b: string, x: Value, y: Value, s: Setting, track: Track, vars: Scope, env: map<string, Value>, params: Params)
    requires Scoped(s, track, vars, env, params) && UncapturedUnderTwo(body, a, b, s.plain, track)
    requires Compiled(s, body, vars[a := Param(|vars|)][b := Param(|vars| + 1)]).Success?
    requires Eval(body, s.w, Rejected, s.doc, env[a := x][b := y]).Some?
    ensures Correct(body, s, vars[a := Param(|vars|)][b := Param(|vars| + 1)], env[a := x][b := y], params[|vars| := x][|vars| + 1 := y])
    decreases body, 1, 1
  {
    BodyIsReady(body, a, b, x, y, s, track, vars, env, params);
    CompileCorrect(body, s, EnteredTwo(track, a, b, |vars|), vars[a := Param(|vars|)][b := Param(|vars| + 1)],
                   env[a := x][b := y], params[|vars| := x][|vars| + 1 := y]);
  }

  /** A closure body that binds two names is ready where it compiles and is defined. */
  lemma BodyIsReady(body: Expr, a: string, b: string, x: Value, y: Value, s: Setting, track: Track, vars: Scope, env: map<string, Value>, params: Params)
    requires Scoped(s, track, vars, env, params) && UncapturedUnderTwo(body, a, b, s.plain, track)
    requires Compiled(s, body, vars[a := Param(|vars|)][b := Param(|vars| + 1)]).Success?
    requires Eval(body, s.w, Rejected, s.doc, env[a := x][b := y]).Some?
    ensures Ready(body, s, EnteredTwo(track, a, b, |vars|), vars[a := Param(|vars|)][b := Param(|vars| + 1)],
                  env[a := x][b := y], params[|vars| := x][|vars| + 1 := y])
  {
    ScopedSize(s, track, vars, env, params);
    EnterBoth(s, track, vars, env, params, a, b, |vars|, x, y);
  }

  lemma FoldStepMeans(body: Expr, acc: Value, xs: seq<Value>, s: Setting, track: Track, vars: Scope, env: map<string, Value>, params: Params) returns (next: Value)
    requires xs != [] && ReadyFold(body, acc, xs, s, track, vars, env, params)
    ensures Eval(body, s.w, Rejected, s.doc, env["value" := acc]["this" := xs[0]]) == Some(next)
    ensures ReadyFold(body, next, xs[1..], s, track, vars, env, params)
  {
    next := Eval(body, s.w, Rejected, s.doc, env["value" := acc]["this" := xs[0]]).value;
  }

  lemma FoldStepCombines(body: Expr, acc: Value, xs: seq<Value>, s: Setting, vars: Scope, env: map<string, Value>, params: Params, next: Value)
    requires xs != [] && Eval(body, s.w, Rejected, s.doc, env["value" := acc]["this" := xs[0]]) == Some(next)
    requires Correct(body, s, vars["value" := Param(|vars|)]["this" := Param(|vars| + 1)],
                     env["value" := acc]["this" := xs[0]], params[|vars| := acc][|vars| + 1 := xs[0]])
    requires CorrectOnFold(body, next, xs[1..], s, vars, env, params)
    ensures CorrectOnFold(body, acc, xs, s, vars, env, params)
  {
  }

  lemma FoldEnds(body: Expr, acc: Value, s: Setting, track: Track, vars: Scope, env: map<string, Value>, params: Params)
    requires ReadyFold(body, acc, [], s, track, vars, env, params)
    ensures CorrectOnFold(body, acc, [], s, vars, env, params)
  {
  }

  lemma ReduceIsReady(e: Expr, s: Setting, track: Track, vars: Scope, env: map<string, Value>, params: Params) returns (seed: Value, items: seq<Value>)
    requires e.Reduce? && Ready(e, s, track, vars, env, params)
    ensures Ready(e.initial, s, track, vars, env, params) && Eval(e.initial, s.w, Rejected, s.doc, env) == Some(seed)
    ensures Ready(e.input, s, track, vars, env, params) && Eval(e.input, s.w, Rejected, s.doc, env) == Some(Arr(items))
    ensures Eval(e, s.w, Rejected, s.doc, env) == EvalFold(e.body, seed, items, s.w, Rejected, s.doc, env)
  {
    seed, items := ReduceMeaning(e, s.w, Rejected, s.doc, env);
    var _, _, _ := ReduceParts(e, s.reg, s.plain, vars);
  }

  lemma FoldIsReady(e: Expr, s: Setting, track: Track, vars: Scope, env: map<string, Value>, params: Params, seed: Value, items: seq<Value>)
    requires e.Reduce? && Ready(e, s, track, vars, env, params)
    requires Eval(e, s.w, Rejected, s.doc, env) == EvalFold(e.body, seed, items, s.w, Rejected, s.doc, env)
    ensures ReadyFold(e.body, seed, items, s, track, vars, env, params)
  {
    var _, _, _ := ReduceParts(e, s.reg, s.plain, vars);
  }

  /** Prepending the seed to the input turns the seeded fold into SurrealDB's own. */
  lemma {:induction false} CorrectReduce(e: Expr, s: Setting, track: Track, vars: Scope, env: map<string, Value>, params: Params)
    requires e.Reduce? && Ready(e, s, track, vars, env, params)
    ensures Correct(e, s, vars, env, params)
    decreases e, 0, 0
  {
    var seed, items := ReduceIsReady(e, s, track, vars, env, params);
    CompileCorrect(e.initial, s, track, vars, env, params);
    CompileCorrect(e.input, s, track, vars, env, params);
    FoldIsReady(e, s, track, vars, env, params, seed, items);
    CorrectFold(e.body, seed, items, s, track, vars, env, params);
    ReduceCombines(e, s, vars, env, params, seed, items);
  }

  lemma ReduceCombines(e: Expr, s: Setting, vars: Scope, env: map<string, Value>, params: Params, seed: Value, items: seq<Value>)
    requires e.Reduce? && Compiled(s, e, vars).Success? && Eval(e, s.w, Rejected, s.doc, env).Some?
    requires Correct(e.initial, s, vars, env, params) && Eval(e.initial, s.w, Rejected, s.doc, env) == Some(seed)
    requires Correct(e.input, s, vars, env, params) && Eval(e.input, s.w, Rejected, s.doc, env) == Some(Arr(items))
    requires CorrectOnFold(e.body, seed, items, s, vars, env, params)
    ensures Correct(e, s, vars, env, params)
  {
    var initial, input, closure := ReduceParts(e, s.reg, s.plain, vars);
    var _, _ := ReduceMeaning(e, s.w, Rejected, s.doc, env);
    ReduceEvaluates(initial, input, |vars|, closure, seed, Arr(items), s, params);
  }

  lemma ReduceEvaluates(initial: Term, input: Term, param: nat, closure: Term, seed: Value, source: Value, s: Setting, params: Params)
    requires source.Arr?
    requires EvalTerm(initial, s.w, s.row, params) == Some(seed)
    requires EvalTerm(input, s.w, s.row, params) == Some(source)
    ensures EvalTerm(ArrayReduce(Apply(Concat, [Apply(ArrayLiteral, [initial]), input]), param, param + 1, closure), s.w, s.row, params)
         == EvalReduce(closure, param, param + 1, seed, source.items, s.w, s.row, params)
  {
    SeedEvaluates(initial, input, seed, source, s, params);
  }

  lemma SeedEvaluates(initial: Term, input: Term, seed: Value, source: Value, s: Setting, params: Params)
    requires source.Arr?
    requires EvalTerm(initial, s.w, s.row, params) == Some(seed)
    requires EvalTerm(input, s.w, s.row, params) == Some(source)
    ensures EvalTerm(Apply(Concat, [Apply(ArrayLiteral, [initial]), input]), s.w, s.row, params) == Some(Arr([seed] + source.items))
    ensures ([seed] + source.items)[1..] == source.items
  {
    EvalTermsIs([initial], [seed], s.w, s.row, params);
    EvalTermsIs([Apply(ArrayLiteral, [initial]), input], [Arr([seed]), source], s.w, s.row, params);
  }

  lemma {:induction false} CorrectLet(e: Expr, s: Setting, track: Track, vars: Scope, env: map<string, Value>, params: Params)
    requires e.Let? && Ready(e, s, track, vars, env, params)
    ensures Correct(e, s, vars, env, params)
    decreases e, 0, 0
  {
    CorrectLive(e.vars, s, track, vars, env, params);
    var terms := CompileBindings(e.vars, s.reg, s.plain, vars).value;
    var values := EvalBindings(e.vars, s.w, Rejected, s.doc, env).value;
    EnterLet(s, e.vars, terms, values, track, vars, env, params);
    CompileCorrect(e.body, s, EnteredLet(e.vars, track), BindAll(Names(e.vars), terms, vars), BindAll(Names(e.vars), values, env), params);
  }

  lemma {:induction false} CorrectDocument(e: Expr, s: Setting, track: Track, vars: Scope, env: map<string, Value>, params: Params)
    requires e.Document? && Ready(e, s, track, vars, env, params)
    ensures Correct(e, s, vars, env, params)
    decreases e, 0, 0
  {
    CorrectBindings(e.fields, s, track, vars, env, params);
    var terms := CompileBindings(e.fields, s.reg, s.plain, vars).value;
    var values := EvalBindings(e.fields, s.w, Rejected, s.doc, env).value;
    DocumentEvaluates(Names(e.fields), terms, values, s, params);
    AllPresent(Names(e.fields), values);
  }

  lemma DocumentEvaluates(keys: seq<string>, terms: seq<Term>, values: seq<Value>, s: Setting, params: Params)
    requires |keys| == |values| && EvalTerms(terms, s.w, s.row, params) == Some(values)
    ensures EvalTerm(Apply(ObjectLiteral(keys), terms), s.w, s.row, params) == Some(Obj(MakeObject(keys, values)))
  {
  }

  /**
   * A whole expression, as a pipeline stage compiles it: no variables in scope. Where it
   * has a value and no missing value is put into an array or an object on the way, the
   * term computes MongoDB's answer.
   */
  lemma CompilerCorrectness(e: Expr, s: Setting)
    requires Valid(s) && Uncaptured(e, s.plain, map[])
    ensures Compiled(s, e, map[]).Success? <==> WellFormed(e, s.reg, {})
    ensures WellFormed(e, s.reg, {}) && Complete(e, s.w, s.doc, map[]) ==>
              EvalTerm(Compiled(s, e, map[]).value, s.w, s.row, map[]) == Eval(e, s.w, Converted, s.doc, map[])
  {
    var none: Scope := map[];
    assert none.Keys == {};
    CompilesExactlyWellFormed(e, s.reg, s.plain, none);
    if WellFormed(e, s.reg, {}) && Complete(e, s.w, s.doc, map[]) {
      OpenScope(s, map[], none, map[], map[]);
      CompileCorrect(e, s, map[], none, map[], map[]);
      CompleteIsConverted(e, s.w, s.doc, map[]);
    }
  }

  /** In particular where no closure rebinds a name in scope. */
  lemma HygienicCorrectness(e: Expr, s: Setting)
    requires Valid(s) && Hygienic(e, s.plain, {}) && WellFormed(e, s.reg, {}) && Complete(e, s.w, s.doc, map[])
    ensures Compiled(s, e, map[]).Success?
    ensures EvalTerm(Compiled(s, e, map[]).value, s.w, s.row, map[]) == Eval(e, s.w, Converted, s.doc, map[])
  {
    var track: Track := map[];
    assert track.Keys == {};
    HygienicIsUncaptured(e, s.plain, track);
    CompilerCorrectness(e, s);
  }
}
