/**
 * The capture condition is exact: numbering closure parameters by the size of the
 * scope gives, up to their names, the term that takes an unused number for each of
 * them, for the expressions the condition accepts and for no others.
 */
module CaptureExactly {
  import opened Values
  import opened ExpressionSource
  import opened SurrealTerms
  import opened ExpressionCompiler
  import opened TermRenaming
  import opened VariableCapture

  // A number no term in scope uses.

  ghost function Ceiling(used: set<nat>): (m: nat)
    ensures forall k :: k in used ==> k < m
    decreases |used|
  {
    if used == {} then 0 else
    var k :| k in used;
    var rest := Ceiling(used - {k});
    assert used == used - {k} + {k};
    if k < rest then rest else k + 1
  }

  function UsedIn(vars: Scope): set<nat> {
    set n, k | n in vars && k in Free(vars[n]) :: k
  }

  ghost function Unused(vars: Scope): nat {
    Ceiling(UsedIn(vars))
  }

  predicate AvoidsAt(vars: Scope, m: nat, n: string)
    requires n in vars
  {
    m !in Free(vars[n])
  }

  /** No variable's term uses parameter `m`. */
  predicate Avoids(vars: Scope, m: nat) {
    forall n {:trigger AvoidsAt(vars, m, n)} :: n in vars ==> AvoidsAt(vars, m, n)
  }

  lemma UnusedIsNew(vars: Scope, alias: string)
    ensures Avoids(vars, Unused(vars)) && Avoids(vars[alias := Param(Unused(vars))], Unused(vars) + 1)
  {
    var m := Unused(vars);
    var inner := vars[alias := Param(m)];
    forall n, k | n in vars && k in Free(vars[n])
      ensures k < m
    {
      assert k in UsedIn(vars);
    }
    forall n | n in vars
      ensures AvoidsAt(vars, m, n)
    {
    }
    forall n | n in inner
      ensures AvoidsAt(inner, m + 1, n)
    {
    }
  }

  // The compiler with such a number at every closure.

  ghost function CompileFresh(e: Expr, reg: Registry, plain: bool, vars: Scope): Result<Term, CompileError>
    decreases e, 0
  {
    match e
    case Field(path) => Success(Idiom(ColumnPath(path, plain)))
    case Variable(name) =>
      if name in vars then Success(vars[name])
      else if name == "NOW" then Success(TimeNow)
      else Failure(UnknownVariable(name))
    case Literal(value) => Success(Bound(value))
    case Strict(op, args) =>
      if op.Call? && op.name !in reg then Failure(UnknownOperator(op.name)) else
      var terms :- CompileFreshAll(args, reg, plain, vars);
      if Accepts(reg, op, |terms|) then Success(Build(reg, op, terms)) else Failure(WrongOperandCount)
    case Cond(test, yes, no) =>
      var t :- CompileFresh(test, reg, plain, vars);
      var y :- CompileFresh(yes, reg, plain, vars);
      var n :- CompileFresh(no, reg, plain, vars);
      Success(If(t, y, n))
    case IfNull(args) =>
      var terms :- CompileFreshAll(args, reg, plain, vars);
      if |terms| < 2 then Failure(WrongOperandCount) else Success(CoalesceAll(terms))
    case Switch(branches, otherwise) =>
      if branches == [] then Failure(NoBranches) else
      var fallback :- if otherwise.None? then Success(Bound(Absent)) else CompileFresh(otherwise.value, reg, plain, vars);
      CompileFreshSwitch(branches, fallback, reg, plain, vars)
    case MapOver(input, alias, body) =>
      var source :- CompileFresh(input, reg, plain, vars);
      var closure :- CompileFresh(body, reg, plain, vars[alias := Param(Unused(vars))]);
      Success(ArrayMap(source, Unused(vars), closure))
    case FilterOver(input, alias, body, limit) =>
      var source :- CompileFresh(input, reg, plain, vars);
      var closure :- CompileFresh(body, reg, plain, vars[alias := Param(Unused(vars))]);
      var filtered := ArrayFilter(source, Unused(vars), closure);
      if limit.None? then Success(filtered) else
      var n :- CompileFresh(limit.value, reg, plain, vars);
      Success(Apply(Slice, [filtered, Bound(Int(0)), n]))
    case Reduce(input, initial, body) =>
      var seed :- CompileFresh(initial, reg, plain, vars);
      var source :- CompileFresh(input, reg, plain, vars);
      var inner := vars["value" := Param(Unused(vars))]["this" := Param(Unused(vars) + 1)];
      var closure :- CompileFresh(body, reg, plain, inner);
      Success(ArrayReduce(Apply(Concat, [Apply(ArrayLiteral, [seed]), source]), Unused(vars), Unused(vars) + 1, closure))
    case Let(bindings, body) =>
      var terms :- CompileFreshBindings(bindings, reg, plain, vars);
      CompileFresh(body, reg, plain, BindAll(Names(bindings), terms, vars))
    case Document(fields) =>
      var terms :- CompileFreshBindings(fields, reg, plain, vars);
      Success(Apply(ObjectLiteral(Names(fields)), terms))
  }

  ghost function CompileFreshAll(es: seq<Expr>, reg: Registry, plain: bool, vars: Scope): (r: Result<seq<Term>, CompileError>)
    ensures r.Success? ==> |r.value| == |es|
    decreases es, 0
  {
    if es == [] then Success([]) else
    var head :- CompileFresh(es[0], reg, plain, vars);
    var tail :- CompileFreshAll(es[1..], reg, plain, vars);
    Success([head] + tail)
  }

  ghost function CompileFreshBindings(bs: seq<Binding>, reg: Registry, plain: bool, vars: Scope): (r: Result<seq<Term>, CompileError>)
    ensures r.Success? ==> |r.value| == |bs|
    decreases bs, 0
  {
    if bs == [] then Success([]) else
    var head :- CompileFresh(bs[0].value, reg, plain, vars);
    var tail :- CompileFreshBindings(bs[1..], reg, plain, vars);
    Success([head] + tail)
  }

  ghost function CompileFreshSwitch(bs: seq<Branch>, fallback: Term, reg: Registry, plain: bool, vars: Scope): Result<Term, CompileError>
    decreases bs, 0
  {
    if bs == [] then Success(fallback) else
    var rest :- CompileFreshSwitch(bs[1..], fallback, reg, plain, vars);
    CompileFreshBranch(bs[0], rest, reg, plain, vars)
  }

  ghost function CompileFreshBranch(b: Branch, fallback: Term, reg: Registry, plain: bool, vars: Scope): Result<Term, CompileError>
    decreases b, 0
  {
    var test :- CompileFresh(b.test, reg, plain, vars);
    var outcome :- CompileFresh(b.outcome, reg, plain, vars);
    Success(If(test, outcome, fallback))
  }

  // The two scopes side by side.

  predicate AlikeAt(track: Track, vars: Scope, other: Scope, stack: seq<Binder>, n: string)
    requires n in track && n in vars && n in other
  {
    Alike(vars[n], other[n], stack) <==> track[n].live
  }

  /** A variable's two terms are alike exactly while the track calls it live. */
  predicate SideBySide(track: Track, vars: Scope, other: Scope, stack: seq<Binder>) {
    && Tracks(track, vars) && other.Keys == vars.Keys
    && forall n {:trigger AlikeAt(track, vars, other, stack, n)} :: n in vars ==> AlikeAt(track, vars, other, stack, n)
  }

  /** A marker term; see `Paired`. */
  predicate Opened(stack: seq<Binder>, n: nat) {
    true
  }

  /** The same, its quantified facts kept behind a trigger that only `OpenPaired` mentions. */
  ghost predicate Paired(track: Track, vars: Scope, other: Scope, stack: seq<Binder>) {
    forall n: nat {:trigger Opened(stack, n)} :: Opened(stack, n) ==> SideBySide(track, vars, other, stack)
  }

  lemma OpenPaired(track: Track, vars: Scope, other: Scope, stack: seq<Binder>)
    ensures Paired(track, vars, other, stack) <==> SideBySide(track, vars, other, stack)
  {
    assert Opened(stack, 0);
  }

  lemma EnteredPaired(track: Track, vars: Scope, other: Scope, stack: seq<Binder>, alias: string, k: nat, m: nat)
    requires Paired(track, vars, other, stack) && Avoids(other, m)
    ensures Paired(Entered(track, alias, k), vars[alias := Param(k)], other[alias := Param(m)], [Binder(k, m)] + stack)
  {
    var track', vars', other', stack' := Entered(track, alias, k), vars[alias := Param(k)], other[alias := Param(m)], [Binder(k, m)] + stack;
    OpenPaired(track, vars, other, stack);
    OpenPaired(track', vars', other', stack');
    EnteredTracks(track, vars, alias, k);
    forall n | n in vars'
      ensures AlikeAt(track', vars', other', stack', n)
    {
      if n != alias {
        assert TrackedAt(track, vars, n) && AlikeAt(track, vars, other, stack, n) && AvoidsAt(other, m, n);
        AlikeInside(vars[n], other[n], [], Binder(k, m), stack);
        assert [] + [Binder(k, m)] + stack == stack' && [] + stack == stack;
      }
    }
  }

  /** Terms bound at once, and what the track says of each. */
  predicate PairedTerms(tracked: seq<Tracked>, ts: seq<Term>, us: seq<Term>, stack: seq<Binder>) {
    && |tracked| == |ts| == |us|
    && (ts != [] ==>
          && Free(ts[0]) == tracked[0].uses && (Alike(ts[0], us[0], stack) <==> tracked[0].live)
          && PairedTerms(tracked[1..], ts[1..], us[1..], stack))
  }

  lemma PairedCons(t: Term, u: Term, head: Tracked, ts: seq<Term>, us: seq<Term>, tracked: seq<Tracked>, stack: seq<Binder>)
    requires Free(t) == head.uses && (Alike(t, u, stack) <==> head.live) && PairedTerms(tracked, ts, us, stack)
    ensures PairedTerms([head] + tracked, [t] + ts, [u] + us, stack)
  {
    assert ([head] + tracked)[1..] == tracked && ([t] + ts)[1..] == ts && ([u] + us)[1..] == us;
  }

  lemma {:induction false} BindAllPaired(names: seq<string>, tracked: seq<Tracked>, ts: seq<Term>, us: seq<Term>,
                                         track: Track, vars: Scope, other: Scope, stack: seq<Binder>)
    requires |names| == |tracked| && PairedTerms(tracked, ts, us, stack) && Paired(track, vars, other, stack)
    ensures Paired(BindAll(names, tracked, track), BindAll(names, ts, vars), BindAll(names, us, other), stack)
  {
    OpenPaired(track, vars, other, stack);
    if names != [] {
      var track', vars', other' := track[names[0] := tracked[0]], vars[names[0] := ts[0]], other[names[0] := us[0]];
      forall n | n in vars'
        ensures TrackedAt(track', vars', n) && AlikeAt(track', vars', other', stack, n)
      {
        if n != names[0] {
          assert TrackedAt(track, vars, n) && AlikeAt(track, vars, other, stack, n);
        }
      }
      OpenPaired(track', vars', other', stack);
      BindAllPaired(names[1..], tracked[1..], ts[1..], us[1..], track', vars', other', stack);
    }
  }

  // The theorem, case by case.

  ghost predicate Exact(e: Expr, reg: Registry, plain: bool, track: Track, vars: Scope, other: Scope, stack: seq<Binder>) {
    var exact :=
      && Compile(e, reg, plain, vars).Success? && CompileFresh(e, reg, plain, other).Success?
      && (Alike(Compile(e, reg, plain, vars).value, CompileFresh(e, reg, plain, other).value, stack) <==> Faithful(e, track));
    exact
  }

  lemma {:induction false} CompiledIsExact(e: Expr, reg: Registry, plain: bool, track: Track, vars: Scope, other: Scope, stack: seq<Binder>)
    requires Paired(track, vars, other, stack) && Compile(e, reg, plain, vars).Success?
    ensures Exact(e, reg, plain, track, vars, other, stack)
    decreases e, 1, 0
  {
    match e
    case Field(_) =>
    case Variable(name) =>
      OpenPaired(track, vars, other, stack);
      if name in vars {
        assert AlikeAt(track, vars, other, stack, name);
      }
    case Literal(_) =>
    case Strict(_, _) => StrictIsExact(e, reg, plain, track, vars, other, stack);
    case Cond(_, _, _) => CondIsExact(e, reg, plain, track, vars, other, stack);
    case IfNull(_) => FirstIsExact(e, reg, plain, track, vars, other, stack);
    case Switch(_, _) => SwitchIsExact(e, reg, plain, track, vars, other, stack);
    case MapOver(_, _, _) => MapIsExact(e, reg, plain, track, vars, other, stack);
    case FilterOver(_, _, _, _) => FilterIsExact(e, reg, plain, track, vars, other, stack);
    case Reduce(_, _, _) => ReduceIsExact(e, reg, plain, track, vars, other, stack);
    case Let(_, _) => LetIsExact(e, reg, plain, track, vars, other, stack);
    case Document(_) => DocumentIsExact(e, reg, plain, track, vars, other, stack);
  }

  /** The two terms by name. */
  lemma {:induction false} TermsAreExact(e: Expr, reg: Registry, plain: bool, track: Track, vars: Scope, other: Scope, stack: seq<Binder>)
    returns (t: Term, u: Term)
    requires Paired(track, vars, other, stack) && Compile(e, reg, plain, vars).Success?
    ensures Compile(e, reg, plain, vars) == Success(t) && CompileFresh(e, reg, plain, other) == Success(u)
    ensures Alike(t, u, stack) <==> Faithful(e, track)
    decreases e, 2, 0
  {
    CompiledIsExact(e, reg, plain, track, vars, other, stack);
    t, u := Compile(e, reg, plain, vars).value, CompileFresh(e, reg, plain, other).value;
  }

  lemma {:induction false} CondIsExact(e: Expr, reg: Registry, plain: bool, track: Track, vars: Scope, other: Scope, stack: seq<Binder>)
    requires e.Cond? && Paired(track, vars, other, stack) && Compile(e, reg, plain, vars).Success?
    ensures Exact(e, reg, plain, track, vars, other, stack)
    decreases e, 0, 0
  {
    CompiledIsExact(e.test, reg, plain, track, vars, other, stack);
    CompiledIsExact(e.yes, reg, plain, track, vars, other, stack);
    CompiledIsExact(e.no, reg, plain, track, vars, other, stack);
  }

  lemma {:induction false} AllAreExact(es: seq<Expr>, reg: Registry, plain: bool, track: Track, vars: Scope, other: Scope, stack: seq<Binder>)
    requires Paired(track, vars, other, stack) && CompileAll(es, reg, plain, vars).Success?
    ensures CompileFreshAll(es, reg, plain, other).Success?
    ensures AlikeAll(CompileAll(es, reg, plain, vars).value, CompileFreshAll(es, reg, plain, other).value, stack) <==> FaithfulAll(es, track)
    decreases es, 0, 0
  {
    if es != [] {
      CompiledIsExact(es[0], reg, plain, track, vars, other, stack);
      AllAreExact(es[1..], reg, plain, track, vars, other, stack);
      AlikeCons(Compile(es[0], reg, plain, vars).value, CompileAll(es[1..], reg, plain, vars).value,
                CompileFresh(es[0], reg, plain, other).value, CompileFreshAll(es[1..], reg, plain, other).value, stack);
    }
  }

  lemma {:induction false} StrictIsExact(e: Expr, reg: Registry, plain: bool, track: Track, vars: Scope, other: Scope, stack: seq<Binder>)
    requires e.Strict? && Paired(track, vars, other, stack) && Compile(e, reg, plain, vars).Success?
    ensures Exact(e, reg, plain, track, vars, other, stack)
    decreases e, 0, 0
  {
    AllAreExact(e.args, reg, plain, track, vars, other, stack);
    AlikeBuild(reg, e.op, CompileAll(e.args, reg, plain, vars).value, CompileFreshAll(e.args, reg, plain, other).value, stack);
  }

  lemma {:induction false} FirstIsExact(e: Expr, reg: Registry, plain: bool, track: Track, vars: Scope, other: Scope, stack: seq<Binder>)
    requires e.IfNull? && Paired(track, vars, other, stack) && Compile(e, reg, plain, vars).Success?
    ensures Exact(e, reg, plain, track, vars, other, stack)
    decreases e, 0, 0
  {
    AllAreExact(e.args, reg, plain, track, vars, other, stack);
    AlikeCoalesce(CompileAll(e.args, reg, plain, vars).value, CompileFreshAll(e.args, reg, plain, other).value, stack);
  }

  lemma {:induction false} SwitchIsExact(e: Expr, reg: Registry, plain: bool, track: Track, vars: Scope, other: Scope, stack: seq<Binder>)
    requires e.Switch? && Paired(track, vars, other, stack) && Compile(e, reg, plain, vars).Success?
    ensures Exact(e, reg, plain, track, vars, other, stack)
    decreases e, 0, 0
  {
    if e.otherwise.Some? {
      CompiledIsExact(e.otherwise.value, reg, plain, track, vars, other, stack);
      BranchesAreExact(e.branches, Compile(e.otherwise.value, reg, plain, vars).value, CompileFresh(e.otherwise.value, reg, plain, other).value,
                       reg, plain, track, vars, other, stack);
    } else {
      BranchesAreExact(e.branches, Bound(Absent), Bound(Absent), reg, plain, track, vars, other, stack);
    }
  }

  lemma {:induction false} BranchesAreExact(bs: seq<Branch>, t: Term, u: Term, reg: Registry, plain: bool,
                                            track: Track, vars: Scope, other: Scope, stack: seq<Binder>)
    requires Paired(track, vars, other, stack) && CompileSwitch(bs, t, reg, plain, vars).Success?
    ensures CompileFreshSwitch(bs, u, reg, plain, other).Success?
    ensures Alike(CompileSwitch(bs, t, reg, plain, vars).value, CompileFreshSwitch(bs, u, reg, plain, other).value, stack)
       <==> FaithfulBranches(bs, track) && Alike(t, u, stack)
    decreases bs, 0, 0
  {
    if bs != [] {
      BranchesAreExact(bs[1..], t, u, reg, plain, track, vars, other, stack);
      var t', u' := AfterFirst(bs, t, u, reg, plain, vars, other);
      BranchIsExact(bs[0], t', u', reg, plain, track, vars, other, stack);
    }
  }

  /** What the first branch is wrapped around, on either side. */
  lemma AfterFirst(bs: seq<Branch>, t: Term, u: Term, reg: Registry, plain: bool, vars: Scope, other: Scope) returns (t': Term, u': Term)
    requires bs != [] && CompileSwitch(bs, t, reg, plain, vars).Success? && CompileFreshSwitch(bs[1..], u, reg, plain, other).Success?
    ensures CompileSwitch(bs[1..], t, reg, plain, vars) == Success(t') && CompileFreshSwitch(bs[1..], u, reg, plain, other) == Success(u')
    ensures CompileSwitch(bs, t, reg, plain, vars) == CompileBranch(bs[0], t', reg, plain, vars)
    ensures CompileFreshSwitch(bs, u, reg, plain, other) == CompileFreshBranch(bs[0], u', reg, plain, other)
  {
    t', u' := CompileSwitch(bs[1..], t, reg, plain, vars).value, CompileFreshSwitch(bs[1..], u, reg, plain, other).value;
  }

  lemma {:induction false} BranchIsExact(b: Branch, t: Term, u: Term, reg: Registry, plain: bool,
                                         track: Track, vars: Scope, other: Scope, stack: seq<Binder>)
    requires Paired(track, vars, other, stack) && CompileBranch(b, t, reg, plain, vars).Success?
    ensures CompileFreshBranch(b, u, reg, plain, other).Success?
    ensures Alike(CompileBranch(b, t, reg, plain, vars).value, CompileFreshBranch(b, u, reg, plain, other).value, stack)
       <==> FaithfulBranch(b, track) && Alike(t, u, stack)
    decreases b, 0, 0
  {
    var test, test' := TermsAreExact(b.test, reg, plain, track, vars, other, stack);
    var outcome, outcome' := TermsAreExact(b.outcome, reg, plain, track, vars, other, stack);
    BranchTerms(b, t, u, reg, plain, vars, other, test, outcome, test', outcome');
    AlikeIf(CompileBranch(b, t, reg, plain, vars), test, outcome, t, CompileFreshBranch(b, u, reg, plain, other), test', outcome', u, stack,
            Faithful(b.test, track), Faithful(b.outcome, track));
  }

  lemma BranchTerms(b: Branch, t: Term, u: Term, reg: Registry, plain: bool, vars: Scope, other: Scope,
                    test: Term, outcome: Term, test': Term, outcome': Term)
    requires Compile(b.test, reg, plain, vars) == Success(test) && Compile(b.outcome, reg, plain, vars) == Success(outcome)
    requires CompileFresh(b.test, reg, plain, other) == Success(test') && CompileFresh(b.outcome, reg, plain, other) == Success(outcome')
    ensures CompileBranch(b, t, reg, plain, vars) == Success(If(test, outcome, t))
    ensures CompileFreshBranch(b, u, reg, plain, other) == Success(If(test', outcome', u))
  {
  }

  lemma AlikeIf(left: Result<Term, CompileError>, test: Term, yes: Term, no: Term,
                right: Result<Term, CompileError>, test': Term, yes': Term, no': Term, stack: seq<Binder>, p: bool, q: bool)
    requires left == Success(If(test, yes, no)) && right == Success(If(test', yes', no'))
    requires (Alike(test, test', stack) <==> p) && (Alike(yes, yes', stack) <==> q)
    ensures Alike(left.value, right.value, stack) <==> p && q && Alike(no, no', stack)
  {
  }

  /** A closure's body, inside the closure on either side. */
  lemma {:induction false} UnderIsExact(body: Expr, alias: string, reg: Registry, plain: bool,
                                        track: Track, vars: Scope, other: Scope, stack: seq<Binder>)
    returns (t: Term, u: Term)
    requires Paired(track, vars, other, stack) && Compile(body, reg, plain, vars[alias := Param(|vars|)]).Success?
    ensures Compile(body, reg, plain, vars[alias := Param(|vars|)]) == Success(t)
    ensures CompileFresh(body, reg, plain, other[alias := Param(Unused(other))]) == Success(u)
    ensures Alike(t, u, [Binder(|vars|, Unused(other))] + stack) <==> FaithfulUnder(body, alias, track)
    decreases body, 2, 0
  {
    NextNumbers(track, vars, other, stack, alias);
    EnteredPaired(track, vars, other, stack, alias, |vars|, Unused(other));
    CompiledIsExact(body, reg, plain, Entered(track, alias, |vars|), vars[alias := Param(|vars|)],
                    other[alias := Param(Unused(other))], [Binder(|vars|, Unused(other))] + stack);
    t := Compile(body, reg, plain, vars[alias := Param(|vars|)]).value;
    u := CompileFresh(body, reg, plain, other[alias := Param(Unused(other))]).value;
  }

  lemma {:induction false} MapIsExact(e: Expr, reg: Registry, plain: bool, track: Track, vars: Scope, other: Scope, stack: seq<Binder>)
    requires e.MapOver? && Paired(track, vars, other, stack) && Compile(e, reg, plain, vars).Success?
    ensures Exact(e, reg, plain, track, vars, other, stack)
    decreases e, 0, 0
  {
    var _, _ := MapParts(e, reg, plain, vars);
    CompiledIsExact(e.input, reg, plain, track, vars, other, stack);
    var _, _ := UnderIsExact(e.body, e.alias, reg, plain, track, vars, other, stack);
  }

  lemma {:induction false} FilterIsExact(e: Expr, reg: Registry, plain: bool, track: Track, vars: Scope, other: Scope, stack: seq<Binder>)
    requires e.FilterOver? && Paired(track, vars, other, stack) && Compile(e, reg, plain, vars).Success?
    ensures Exact(e, reg, plain, track, vars, other, stack)
    decreases e, 0, 1
  {
    var list, limit, list', limit' := FilterTerms(e, reg, plain, track, vars, other, stack);
    var p := Faithful(e.input, track) && FaithfulUnder(e.body, e.alias, track);
    FaithfulFilter(e, track);
    if e.limit.Some? {
      AlikeSlice(list, limit, list', limit', stack);
      Combines(e, reg, plain, track, vars, other, stack, Apply(Slice, [list, Bound(Int(0)), limit]), Apply(Slice, [list', Bound(Int(0)), limit']),
               p && Faithful(e.limit.value, track));
    } else {
      Combines(e, reg, plain, track, vars, other, stack, list, list', p);
    }
  }

  /** The filtered list and its limit, on either side. */
  lemma {:induction false} FilterTerms(e: Expr, reg: Registry, plain: bool, track: Track, vars: Scope, other: Scope, stack: seq<Binder>)
    returns (list: Term, limit: Term, list': Term, limit': Term)
    requires e.FilterOver? && Paired(track, vars, other, stack) && Compile(e, reg, plain, vars).Success?
    ensures Alike(list, list', stack) <==> Faithful(e.input, track) && FaithfulUnder(e.body, e.alias, track)
    ensures e.limit.Some? ==> (Alike(limit, limit', stack) <==> Faithful(e.limit.value, track))
    ensures Compile(e, reg, plain, vars) == Success(if e.limit.None? then list else Apply(Slice, [list, Bound(Int(0)), limit]))
    ensures CompileFresh(e, reg, plain, other) == Success(if e.limit.None? then list' else Apply(Slice, [list', Bound(Int(0)), limit']))
    decreases e, 0, 0
  {
    var source, closure, n := FilterParts(e, reg, plain, vars);
    var t, t' := TermsAreExact(e.input, reg, plain, track, vars, other, stack);
    var u, u' := UnderIsExact(e.body, e.alias, reg, plain, track, vars, other, stack);
    AlikeFilter(t, |vars|, u, t', Unused(other), u', stack, Faithful(e.input, track), FaithfulUnder(e.body, e.alias, track));
    list, limit, list', limit' := ArrayFilter(t, |vars|, u), n, ArrayFilter(t', Unused(other), u'), n;
    if e.limit.Some? {
      limit, limit' := TermsAreExact(e.limit.value, reg, plain, track, vars, other, stack);
    }
    FilterFresh(e, reg, plain, other, t', u');
  }

  /** What remains of a case once both terms and the condition are known. */
  lemma Combines(e: Expr, reg: Registry, plain: bool, track: Track, vars: Scope, other: Scope, stack: seq<Binder>, t: Term, u: Term, ok: bool)
    requires Compile(e, reg, plain, vars) == Success(t) && CompileFresh(e, reg, plain, other) == Success(u)
    requires (Faithful(e, track) <==> ok) && (Alike(t, u, stack) <==> ok)
    ensures Exact(e, reg, plain, track, vars, other, stack)
  {
  }

  lemma FilterFresh(e: Expr, reg: Registry, plain: bool, other: Scope, source: Term, closure: Term)
    requires e.FilterOver? && CompileFresh(e.input, reg, plain, other) == Success(source)
    requires CompileFresh(e.body, reg, plain, other[e.alias := Param(Unused(other))]) == Success(closure)
    ensures e.limit.None? ==> CompileFresh(e, reg, plain, other) == Success(ArrayFilter(source, Unused(other), closure))
    ensures e.limit.Some? && CompileFresh(e.limit.value, reg, plain, other).Success? ==>
              CompileFresh(e, reg, plain, other) == Success(Apply(Slice, [ArrayFilter(source, Unused(other), closure), Bound(Int(0)),
                                                                        CompileFresh(e.limit.value, reg, plain, other).value]))
  {
  }

  lemma FaithfulFilter(e: Expr, track: Track)
    requires e.FilterOver?
    ensures Faithful(e, track)
       <==> Faithful(e.input, track) && FaithfulUnder(e.body, e.alias, track) && (e.limit.Some? ==> Faithful(e.limit.value, track))
  {
  }

  lemma AlikeFilter(source: Term, k: nat, t: Term, source': Term, m: nat, u: Term, stack: seq<Binder>, p: bool, q: bool)
    requires (Alike(source, source', stack) <==> p) && (Alike(t, u, [Binder(k, m)] + stack) <==> q)
    ensures Alike(ArrayFilter(source, k, t), ArrayFilter(source', m, u), stack) <==> p && q
  {
  }

  lemma AlikeSlice(list: Term, limit: Term, list': Term, limit': Term, stack: seq<Binder>)
    ensures Alike(Apply(Slice, [list, Bound(Int(0)), limit]), Apply(Slice, [list', Bound(Int(0)), limit']), stack)
       <==> Alike(list, list', stack) && Alike(limit, limit', stack)
  {
    AlikeTwo(Bound(Int(0)), limit, Bound(Int(0)), limit', stack);
    assert [list, Bound(Int(0)), limit][1..] == [Bound(Int(0)), limit];
    assert [list', Bound(Int(0)), limit'][1..] == [Bound(Int(0)), limit'];
  }

  lemma {:induction false} ReduceIsExact(e: Expr, reg: Registry, plain: bool, track: Track, vars: Scope, other: Scope, stack: seq<Binder>)
    requires e.Reduce? && Paired(track, vars, other, stack) && Compile(e, reg, plain, vars).Success?
    ensures Exact(e, reg, plain, track, vars, other, stack)
    decreases e, 0, 2
  {
    var seed, source, closure, seed', source', closure', k, m := ReduceTerms(e, reg, plain, track, vars, other, stack);
    FaithfulReduce(e, track);
    AlikeReduce(seed, source, k, closure, seed', source', m, closure', stack, Faithful(e.initial, track), Faithful(e.input, track),
                FaithfulUnderTwo(e.body, "value", "this", track));
    Combines(e, reg, plain, track, vars, other, stack, ReduceTerm(seed, source, k, closure), ReduceTerm(seed', source', m, closure'), Faithful(e, track));
  }

  lemma {:induction false} ReduceTerms(e: Expr, reg: Registry, plain: bool, track: Track, vars: Scope, other: Scope, stack: seq<Binder>)
    returns (seed: Term, source: Term, closure: Term, seed': Term, source': Term, closure': Term, k: nat, m: nat)
    requires e.Reduce? && Paired(track, vars, other, stack) && Compile(e, reg, plain, vars).Success?
    ensures Compile(e, reg, plain, vars) == Success(ReduceTerm(seed, source, k, closure))
    ensures CompileFresh(e, reg, plain, other) == Success(ReduceTerm(seed', source', m, closure'))
    ensures (Alike(seed, seed', stack) <==> Faithful(e.initial, track)) && (Alike(source, source', stack) <==> Faithful(e.input, track))
    ensures Alike(closure, closure', [Binder(k + 1, m + 1), Binder(k, m)] + stack) <==> FaithfulUnderTwo(e.body, "value", "this", track)
    decreases e, 0, 1
  {
    var t, t' := TermsAreExact(e.initial, reg, plain, track, vars, other, stack);
    var u, u' := TermsAreExact(e.input, reg, plain, track, vars, other, stack);
    seed', source' := t', u';
    seed, source, closure, closure', k, m := FoldBodyIsExact(e, seed', source', reg, plain, track, vars, other, stack);
  }

  lemma {:induction false} FoldBodyIsExact(e: Expr, seed': Term, source': Term, reg: Registry, plain: bool,
                                           track: Track, vars: Scope, other: Scope, stack: seq<Binder>)
    returns (seed: Term, source: Term, closure: Term, closure': Term, k: nat, m: nat)
    requires e.Reduce? && Paired(track, vars, other, stack) && Compile(e, reg, plain, vars).Success?
    requires CompileFresh(e.initial, reg, plain, other) == Success(seed') && CompileFresh(e.input, reg, plain, other) == Success(source')
    ensures Compile(e.initial, reg, plain, vars) == Success(seed) && Compile(e.input, reg, plain, vars) == Success(source)
    ensures Compile(e, reg, plain, vars) == Success(ReduceTerm(seed, source, k, closure))
    ensures CompileFresh(e, reg, plain, other) == Success(ReduceTerm(seed', source', m, closure'))
    ensures Alike(closure, closure', [Binder(k + 1, m + 1), Binder(k, m)] + stack) <==> FaithfulUnderTwo(e.body, "value", "this", track)
    decreases e, 0, 0
  {
    k, m := |vars|, Unused(other);
    seed, source, closure := ReduceParts(e, reg, plain, vars);
    NextNumbers(track, vars, other, stack, "value");
    closure, closure' := UnderTwoIsExact(e.body, "value", "this", k, m, reg, plain, track, vars, other, stack);
    ReduceFresh(e, reg, plain, other, m, seed', source', closure');
  }

  function ReduceTerm(seed: Term, source: Term, k: nat, closure: Term): Term {
    ArrayReduce(Apply(Concat, [Apply(ArrayLiteral, [seed]), source]), k, k + 1, closure)
  }

  lemma ReduceFresh(e: Expr, reg: Registry, plain: bool, other: Scope, m: nat, seed: Term, source: Term, closure: Term)
    requires e.Reduce? && m == Unused(other) && CompileFresh(e.initial, reg, plain, other) == Success(seed) && CompileFresh(e.input, reg, plain, other) == Success(source)
    requires CompileFresh(e.body, reg, plain, other["value" := Param(m)]["this" := Param(m + 1)]) == Success(closure)
    ensures CompileFresh(e, reg, plain, other) == Success(ReduceTerm(seed, source, m, closure))
  {
  }

  lemma FaithfulReduce(e: Expr, track: Track)
    requires e.Reduce?
    ensures Faithful(e, track)
       <==> Faithful(e.initial, track) && Faithful(e.input, track) && FaithfulUnderTwo(e.body, "value", "this", track)
  {
  }

  lemma {:induction false} UnderTwoIsExact(body: Expr, a: string, b: string, k: nat, m: nat, reg: Registry, plain: bool,
                                           track: Track, vars: Scope, other: Scope, stack: seq<Binder>)
    returns (t: Term, u: Term)
    requires Paired(track, vars, other, stack) && k == |track| && Avoids(other, m) && Avoids(other[a := Param(m)], m + 1)
    requires Compile(body, reg, plain, vars[a := Param(k)][b := Param(k + 1)]).Success?
    ensures Compile(body, reg, plain, vars[a := Param(k)][b := Param(k + 1)]) == Success(t)
    ensures CompileFresh(body, reg, plain, other[a := Param(m)][b := Param(m + 1)]) == Success(u)
    ensures Alike(t, u, [Binder(k + 1, m + 1), Binder(k, m)] + stack) <==> FaithfulUnderTwo(body, a, b, track)
    decreases body, 2, 0
  {
    var vars', other', track', stack' := EnteredTwice(track, vars, other, stack, a, b, k, m);
    CompiledIsExact(body, reg, plain, track', vars', other', stack');
    t := Compile(body, reg, plain, vars').value;
    u := CompileFresh(body, reg, plain, other').value;
  }

  /** The numbers the two sides give their next closures. */
  lemma NextNumbers(track: Track, vars: Scope, other: Scope, stack: seq<Binder>, alias: string)
    requires Paired(track, vars, other, stack)
    ensures |track| == |vars| && Avoids(other, Unused(other)) && Avoids(other[alias := Param(Unused(other))], Unused(other) + 1)
  {
    OpenPaired(track, vars, other, stack);
    SameSize(track, vars);
    UnusedIsNew(other, alias);
  }

  lemma EnteredTwice(track: Track, vars: Scope, other: Scope, stack: seq<Binder>, a: string, b: string, k: nat, m: nat)
    returns (vars': Scope, other': Scope, track': Track, stack': seq<Binder>)
    requires Paired(track, vars, other, stack) && Avoids(other, m) && Avoids(other[a := Param(m)], m + 1)
    ensures vars' == vars[a := Param(k)][b := Param(k + 1)] && other' == other[a := Param(m)][b := Param(m + 1)]
    ensures track' == EnteredTwo(track, a, b, k) && stack' == [Binder(k + 1, m + 1), Binder(k, m)] + stack
    ensures Paired(track', vars', other', stack')
  {
    var vars1, other1, track1, stack1 := EnteredNext(track, vars, other, stack, a, k, m);
    vars', other', track', stack' := EnteredNext(track1, vars1, other1, stack1, b, k + 1, m + 1);
    PushTwo(Binder(k + 1, m + 1), Binder(k, m), stack);
  }

  lemma PushTwo(second: Binder, first: Binder, stack: seq<Binder>)
    ensures [second] + ([first] + stack) == [second, first] + stack
  {
  }

  lemma EnteredNext(track: Track, vars: Scope, other: Scope, stack: seq<Binder>, alias: string, k: nat, m: nat)
    returns (vars': Scope, other': Scope, track': Track, stack': seq<Binder>)
    requires Paired(track, vars, other, stack) && Avoids(other, m)
    ensures vars' == vars[alias := Param(k)] && other' == other[alias := Param(m)]
    ensures track' == Entered(track, alias, k) && stack' == [Binder(k, m)] + stack
    ensures Paired(track', vars', other', stack')
  {
    EnteredPaired(track, vars, other, stack, alias, k, m);
    vars', other', track', stack' := vars[alias := Param(k)], other[alias := Param(m)], Entered(track, alias, k), [Binder(k, m)] + stack;
  }

  lemma AlikeReduce(seed: Term, source: Term, k: nat, t: Term, seed': Term, source': Term, m: nat, u: Term, stack: seq<Binder>,
                    p: bool, q: bool, r: bool)
    requires (Alike(seed, seed', stack) <==> p) && (Alike(source, source', stack) <==> q)
    requires Alike(t, u, [Binder(k + 1, m + 1), Binder(k, m)] + stack) <==> r
    ensures Alike(ReduceTerm(seed, source, k, t), ReduceTerm(seed', source', m, u), stack) <==> p && q && r
  {
    AlikeOne(seed, seed', stack);
    AlikeTwo(Apply(ArrayLiteral, [seed]), source, Apply(ArrayLiteral, [seed']), source', stack);
  }

  lemma {:induction false} BindingsAreExact(bs: seq<Binding>, reg: Registry, plain: bool, track: Track, vars: Scope, other: Scope, stack: seq<Binder>)
    requires Paired(track, vars, other, stack) && CompileBindings(bs, reg, plain, vars).Success?
    ensures CompileFreshBindings(bs, reg, plain, other).Success?
    ensures PairedTerms(TrackBindings(bs, track), CompileBindings(bs, reg, plain, vars).value, CompileFreshBindings(bs, reg, plain, other).value, stack)
    decreases bs, 0, 0
  {
    if bs != [] {
      var t, u := TermsAreExact(bs[0].value, reg, plain, track, vars, other, stack);
      TermUses(bs[0].value, reg, plain, track, vars, other, stack, t);
      BindingsAreExact(bs[1..], reg, plain, track, vars, other, stack);
      PairedCons(t, u, Tracked(Uses(bs[0].value, track), Faithful(bs[0].value, track)), CompileBindings(bs[1..], reg, plain, vars).value,
                 CompileFreshBindings(bs[1..], reg, plain, other).value, TrackBindings(bs[1..], track), stack);
    }
  }

  lemma TermUses(e: Expr, reg: Registry, plain: bool, track: Track, vars: Scope, other: Scope, stack: seq<Binder>, t: Term)
    requires Paired(track, vars, other, stack) && Compile(e, reg, plain, vars) == Success(t)
    ensures Free(t) == Uses(e, track)
  {
    OpenPaired(track, vars, other, stack);
    CompiledUses(e, reg, plain, vars, track);
  }

  predicate AllLive(tracked: seq<Tracked>) {
    tracked == [] || (tracked[0].live && AllLive(tracked[1..]))
  }

  lemma {:induction false} FaithfulIsLive(bs: seq<Binding>, track: Track)
    ensures FaithfulBindings(bs, track) <==> AllLive(TrackBindings(bs, track))
    decreases bs
  {
    if bs != [] {
      FaithfulIsLive(bs[1..], track);
      assert TrackBindings(bs, track)[1..] == TrackBindings(bs[1..], track);
    }
  }

  lemma {:induction false} AlikeIsLive(tracked: seq<Tracked>, ts: seq<Term>, us: seq<Term>, stack: seq<Binder>)
    requires PairedTerms(tracked, ts, us, stack)
    ensures AlikeAll(ts, us, stack) <==> AllLive(tracked)
  {
    if ts != [] {
      AlikeIsLive(tracked[1..], ts[1..], us[1..], stack);
    }
  }

  lemma {:induction false} LetIsExact(e: Expr, reg: Registry, plain: bool, track: Track, vars: Scope, other: Scope, stack: seq<Binder>)
    requires e.Let? && Paired(track, vars, other, stack) && Compile(e, reg, plain, vars).Success?
    ensures Exact(e, reg, plain, track, vars, other, stack)
    decreases e, 0, 0
  {
    BindingsAreExact(e.vars, reg, plain, track, vars, other, stack);
    var ts, us := CompileBindings(e.vars, reg, plain, vars).value, CompileFreshBindings(e.vars, reg, plain, other).value;
    BindAllPaired(Names(e.vars), TrackBindings(e.vars, track), ts, us, track, vars, other, stack);
    CompiledIsExact(e.body, reg, plain, EnteredLet(e.vars, track), BindAll(Names(e.vars), ts, vars), BindAll(Names(e.vars), us, other), stack);
  }

  lemma {:induction false} DocumentIsExact(e: Expr, reg: Registry, plain: bool, track: Track, vars: Scope, other: Scope, stack: seq<Binder>)
    requires e.Document? && Paired(track, vars, other, stack) && Compile(e, reg, plain, vars).Success?
    ensures Exact(e, reg, plain, track, vars, other, stack)
    decreases e, 0, 0
  {
    BindingsAreExact(e.fields, reg, plain, track, vars, other, stack);
    FaithfulIsLive(e.fields, track);
    AlikeIsLive(TrackBindings(e.fields, track), CompileBindings(e.fields, reg, plain, vars).value,
                CompileFreshBindings(e.fields, reg, plain, other).value, stack);
  }

  /**
   * A whole expression: the numbering captures nothing exactly when no variable is read
   * inside a closure that binds a parameter its term uses.
   */
  lemma CaptureFreeExactly(e: Expr, reg: Registry, plain: bool)
    requires WellFormed(e, reg, {})
    ensures Compile(e, reg, plain, map[]).Success? && CompileFresh(e, reg, plain, map[]).Success?
    ensures Alike(Compile(e, reg, plain, map[]).value, CompileFresh(e, reg, plain, map[]).value, []) <==> Faithful(e, map[])
  {
    var none: Scope := map[];
    assert none.Keys == {};
    CompilesExactlyWellFormed(e, reg, plain, none);
    OpenPaired(map[], none, none, []);
    CompiledIsExact(e, reg, plain, map[], none, none, []);
  }

  /** Then the numbering makes no difference to what is computed, on any row. */
  lemma CaptureFreeComputes(e: Expr, reg: Registry, plain: bool, w: World, row: map<string, Value>)
    requires WellFormed(e, reg, {}) && Faithful(e, map[])
    ensures Compile(e, reg, plain, map[]).Success? && CompileFresh(e, reg, plain, map[]).Success?
    ensures EvalTerm(Compile(e, reg, plain, map[]).value, w, row, map[]) == EvalTerm(CompileFresh(e, reg, plain, map[]).value, w, row, map[])
  {
    CaptureFreeExactly(e, reg, plain);
    AlikeEvaluates(Compile(e, reg, plain, map[]).value, CompileFresh(e, reg, plain, map[]).value, [], w, row, map[], map[]);
  }
}
