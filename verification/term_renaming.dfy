/**
 * Terms that differ in the names of their closure parameters only: they compute the
 * same value, and they stop being alike exactly where one of them captures a parameter.
 */
module TermRenaming {
  import opened Values
  import opened ExpressionSource
  import opened SurrealTerms
  import opened ExpressionCompiler

  /** A pair of closures entered together, and the parameter each binds. */
  datatype Binder = Binder(left: nat, right: nat)

  /** Whether two parameters are bound by the same pair, the innermost coming first. */
  predicate SameBinder(stack: seq<Binder>, i: nat, j: nat) {
    if stack == [] then i == j
    else if stack[0].left == i || stack[0].right == j then stack[0] == Binder(i, j)
    else SameBinder(stack[1..], i, j)
  }

  /** The same term but for the numbers of the closure parameters. */
  predicate Alike(t: Term, u: Term, stack: seq<Binder>)
    decreases t
  {
    match t
    case Idiom(_) => u == t
    case Param(i) => u.Param? && SameBinder(stack, i, u.index)
    case Bound(_) => u == t
    case TimeNow => u == t
    case Apply(fn, args) => u.Apply? && u.fn == fn && AlikeAll(args, u.args, stack)
    case If(test, yes, no) => u.If? && Alike(test, u.test, stack) && Alike(yes, u.yes, stack) && Alike(no, u.no, stack)
    case Coalesce(first, fallback) => u.Coalesce? && Alike(first, u.first, stack) && Alike(fallback, u.fallback, stack)
    case ArrayMap(input, param, body) =>
      u.ArrayMap? && Alike(input, u.input, stack) && Alike(body, u.body, [Binder(param, u.param)] + stack)
    case ArrayFilter(input, param, body) =>
      u.ArrayFilter? && Alike(input, u.input, stack) && Alike(body, u.body, [Binder(param, u.param)] + stack)
    case ArrayReduce(input, acc, current, body) =>
      u.ArrayReduce? && Alike(input, u.input, stack)
      && Alike(body, u.body, [Binder(current, u.current), Binder(acc, u.acc)] + stack)
  }

  predicate AlikeAll(ts: seq<Term>, us: seq<Term>, stack: seq<Binder>)
    decreases ts
  {
    && |ts| == |us|
    && (ts != [] ==> Alike(ts[0], us[0], stack) && AlikeAll(ts[1..], us[1..], stack))
  }

  // Alike terms compute the same.

  ghost predicate Matches(stack: seq<Binder>, p: Params, q: Params) {
    forall i: nat, j: nat {:trigger SameBinder(stack, i, j)} ::
      SameBinder(stack, i, j) ==> (i in p <==> j in q) && (i in p ==> p[i] == q[j])
  }

  lemma MatchesInside(stack: seq<Binder>, p: Params, q: Params, i: nat, j: nat, x: Value)
    requires Matches(stack, p, q)
    ensures Matches([Binder(i, j)] + stack, p[i := x], q[j := x])
  {
    var inner := [Binder(i, j)] + stack;
    assert inner[1..] == stack;
    forall a: nat, b: nat | SameBinder(inner, a, b)
      ensures (a in p[i := x] <==> b in q[j := x]) && (a in p[i := x] ==> p[i := x][a] == q[j := x][b])
    {
      if a != i && b != j {
        assert SameBinder(stack, a, b);
      }
    }
  }

  /** Two fold bodies take the same step from `x` over `y`. */
  predicate StepsAlike(t: Term, acc: nat, current: nat, u: Term, acc': nat, current': nat, x: Value, y: Value,
                       w: World, row: map<string, Value>, p: Params, q: Params) {
    EvalTerm(t, w, row, p[acc := x][current := y]) == EvalTerm(u, w, row, q[acc' := x][current' := y])
  }

  lemma {:induction false} FoldsAlike(t: Term, acc: nat, current: nat, u: Term, acc': nat, current': nat, seed: Value, xs: seq<Value>,
                                      w: World, row: map<string, Value>, p: Params, q: Params)
    requires forall x, y :: StepsAlike(t, acc, current, u, acc', current', x, y, w, row, p, q)
    ensures EvalReduce(t, acc, current, seed, xs, w, row, p) == EvalReduce(u, acc', current', seed, xs, w, row, q)
    decreases |xs|
  {
    if xs != [] {
      assert StepsAlike(t, acc, current, u, acc', current', seed, xs[0], w, row, p, q);
      var next := FirstStep(t, acc, current, u, acc', current', seed, xs, w, row, p, q);
      if next.Some? {
        FoldsAlike(t, acc, current, u, acc', current', next.value, xs[1..], w, row, p, q);
      }
    }
  }

  lemma FirstStep(t: Term, acc: nat, current: nat, u: Term, acc': nat, current': nat, seed: Value, xs: seq<Value>,
                  w: World, row: map<string, Value>, p: Params, q: Params) returns (next: Option<Value>)
    requires xs != [] && StepsAlike(t, acc, current, u, acc', current', seed, xs[0], w, row, p, q)
    ensures EvalReduce(t, acc, current, seed, xs, w, row, p)
         == if next.None? then None else EvalReduce(t, acc, current, next.value, xs[1..], w, row, p)
    ensures EvalReduce(u, acc', current', seed, xs, w, row, q)
         == if next.None? then None else EvalReduce(u, acc', current', next.value, xs[1..], w, row, q)
  {
    next := EvalTerm(t, w, row, p[acc := seed][current := xs[0]]);
  }

  lemma {:induction false} AlikeEvaluates(t: Term, u: Term, stack: seq<Binder>, w: World, row: map<string, Value>, p: Params, q: Params)
    requires Alike(t, u, stack) && Matches(stack, p, q)
    ensures EvalTerm(t, w, row, p) == EvalTerm(u, w, row, q)
    decreases t, 2, 0
  {
    match t
    case Idiom(_) =>
    case Param(i) =>
      assert SameBinder(stack, i, u.index);
    case Bound(_) =>
    case TimeNow =>
    case Apply(_, args) => AlikeEvaluatesAll(args, u.args, stack, w, row, p, q);
    case If(test, yes, no) =>
      AlikeEvaluates(test, u.test, stack, w, row, p, q);
      AlikeEvaluates(yes, u.yes, stack, w, row, p, q);
      AlikeEvaluates(no, u.no, stack, w, row, p, q);
    case Coalesce(first, fallback) =>
      AlikeEvaluates(first, u.first, stack, w, row, p, q);
      AlikeEvaluates(fallback, u.fallback, stack, w, row, p, q);
    case ArrayMap(_, _, _) => AlikeEvaluatesMapped(t, u, stack, w, row, p, q);
    case ArrayFilter(_, _, _) => AlikeEvaluatesMapped(t, u, stack, w, row, p, q);
    case ArrayReduce(_, _, _, _) => AlikeEvaluatesReduce(t, u, stack, w, row, p, q);
  }

  lemma {:induction false} AlikeEvaluatesMapped(t: Term, u: Term, stack: seq<Binder>, w: World, row: map<string, Value>, p: Params, q: Params)
    requires (t.ArrayMap? || t.ArrayFilter?) && Alike(t, u, stack) && Matches(stack, p, q)
    ensures EvalTerm(t, w, row, p) == EvalTerm(u, w, row, q)
    decreases t, 0
  {
    AlikeEvaluates(t.input, u.input, stack, w, row, p, q);
    var source := EvalTerm(t.input, w, row, p);
    if source.Some? && source.value.Arr? {
      AlikeEvaluatesEach(t.body, t.param, u.body, u.param, source.value.items, stack, w, row, p, q);
    }
  }

  lemma {:induction false} AlikeEvaluatesReduce(t: Term, u: Term, stack: seq<Binder>, w: World, row: map<string, Value>, p: Params, q: Params)
    requires t.ArrayReduce? && Alike(t, u, stack) && Matches(stack, p, q)
    ensures EvalTerm(t, w, row, p) == EvalTerm(u, w, row, q)
    decreases t, 0
  {
    AlikeEvaluates(t.input, u.input, stack, w, row, p, q);
    var source := EvalTerm(t.input, w, row, p);
    if source.Some? && source.value.Arr? && source.value.items != [] {
      forall x, y
        ensures StepsAlike(t.body, t.acc, t.current, u.body, u.acc, u.current, x, y, w, row, p, q)
      {
        AlikeEvaluatesStep(t.body, u.body, Binder(t.current, u.current), Binder(t.acc, u.acc), x, y, stack, w, row, p, q);
      }
      FoldsAlike(t.body, t.acc, t.current, u.body, u.acc, u.current, source.value.items[0], source.value.items[1..], w, row, p, q);
    }
  }

  lemma {:induction false} AlikeEvaluatesAll(ts: seq<Term>, us: seq<Term>, stack: seq<Binder>, w: World, row: map<string, Value>, p: Params, q: Params)
    requires AlikeAll(ts, us, stack) && Matches(stack, p, q)
    ensures EvalTerms(ts, w, row, p) == EvalTerms(us, w, row, q)
    decreases ts, 0, 0
  {
    if ts != [] {
      AlikeEvaluates(ts[0], us[0], stack, w, row, p, q);
      AlikeEvaluatesAll(ts[1..], us[1..], stack, w, row, p, q);
    }
  }

  lemma {:induction false} AlikeEvaluatesEach(t: Term, i: nat, u: Term, j: nat, xs: seq<Value>, stack: seq<Binder>,
                                              w: World, row: map<string, Value>, p: Params, q: Params)
    requires Alike(t, u, [Binder(i, j)] + stack) && Matches(stack, p, q)
    ensures EvalClosure(t, i, xs, w, row, p) == EvalClosure(u, j, xs, w, row, q)
    decreases t, 3, |xs|
  {
    if xs != [] {
      MatchesInside(stack, p, q, i, j, xs[0]);
      AlikeEvaluates(t, u, [Binder(i, j)] + stack, w, row, p[i := xs[0]], q[j := xs[0]]);
      AlikeEvaluatesEach(t, i, u, j, xs[1..], stack, w, row, p, q);
    }
  }

  lemma MatchesBoth(stack: seq<Binder>, p: Params, q: Params, acc: Binder, current: Binder, x: Value, y: Value)
    requires Matches(stack, p, q)
    ensures Matches([current, acc] + stack, p[acc.left := x][current.left := y], q[acc.right := x][current.right := y])
  {
    MatchesInside(stack, p, q, acc.left, acc.right, x);
    MatchesInside([acc] + stack, p[acc.left := x], q[acc.right := x], current.left, current.right, y);
    assert [current] + ([acc] + stack) == [current, acc] + stack;
  }

  lemma {:induction false} AlikeEvaluatesStep(t: Term, u: Term, current: Binder, acc: Binder, x: Value, y: Value, stack: seq<Binder>,
                                              w: World, row: map<string, Value>, p: Params, q: Params)
    requires Alike(t, u, [current, acc] + stack) && Matches(stack, p, q)
    ensures EvalTerm(t, w, row, p[acc.left := x][current.left := y]) == EvalTerm(u, w, row, q[acc.right := x][current.right := y])
    decreases t, 2, 1
  {
    MatchesBoth(stack, p, q, acc, current, x, y);
    AlikeEvaluates(t, u, [current, acc] + stack, w, row, p[acc.left := x][current.left := y], q[acc.right := x][current.right := y]);
  }

  // One more closure around both.

  function Lefts(stack: seq<Binder>): set<nat> {
    if stack == [] then {} else {stack[0].left} + Lefts(stack[1..])
  }

  function Rights(stack: seq<Binder>): set<nat> {
    if stack == [] then {} else {stack[0].right} + Rights(stack[1..])
  }

  lemma {:induction false} SameBinderInside(inner: seq<Binder>, b: Binder, outer: seq<Binder>, i: nat, j: nat)
    requires j != b.right || j in Rights(inner)
    ensures SameBinder(inner + [b] + outer, i, j) <==> SameBinder(inner + outer, i, j) && (i != b.left || i in Lefts(inner))
  {
    var whole := inner + [b] + outer;
    if inner == [] {
      assert whole == [b] + outer && inner + outer == outer && whole[1..] == outer;
    } else {
      assert whole[0] == inner[0] == (inner + outer)[0];
      assert whole[1..] == inner[1..] + [b] + outer && (inner + outer)[1..] == inner[1..] + outer;
      if inner[0].left != i && inner[0].right != j {
        SameBinderInside(inner[1..], b, outer, i, j);
      }
    }
  }

  /**
   * Where the closures on the right bind a parameter new to their body, one more
   * closure keeps two terms alike exactly when the left one does not use what it binds.
   */
  lemma {:induction false} AlikeInside(t: Term, u: Term, inner: seq<Binder>, b: Binder, outer: seq<Binder>)
    requires b.right !in Free(u) - Rights(inner)
    ensures Alike(t, u, inner + [b] + outer) <==> Alike(t, u, inner + outer) && b.left !in Free(t) - Lefts(inner)
    decreases t, 0
  {
    match t
    case Idiom(_) =>
    case Param(i) =>
      if u.Param? {
        SameBinderInside(inner, b, outer, i, u.index);
      }
    case Bound(_) =>
    case TimeNow =>
    case Apply(fn, args) =>
      if u.Apply? && u.fn == fn {
        AlikeAllInside(args, u.args, inner, b, outer);
      }
    case If(test, yes, no) =>
      if u.If? {
        AlikeInside(test, u.test, inner, b, outer);
        AlikeInside(yes, u.yes, inner, b, outer);
        AlikeInside(no, u.no, inner, b, outer);
      }
    case Coalesce(first, fallback) =>
      if u.Coalesce? {
        AlikeInside(first, u.first, inner, b, outer);
        AlikeInside(fallback, u.fallback, inner, b, outer);
      }
    case ArrayMap(input, param, body) =>
      if u.ArrayMap? {
        AlikeInside(input, u.input, inner, b, outer);
        AlikeUnderInside(body, u.body, [Binder(param, u.param)], inner, b, outer);
      }
    case ArrayFilter(input, param, body) =>
      if u.ArrayFilter? {
        AlikeInside(input, u.input, inner, b, outer);
        AlikeUnderInside(body, u.body, [Binder(param, u.param)], inner, b, outer);
      }
    case ArrayReduce(input, acc, current, body) =>
      if u.ArrayReduce? {
        AlikeInside(input, u.input, inner, b, outer);
        SidesOfTwo(Binder(current, u.current), Binder(acc, u.acc));
        AlikeUnderInside(body, u.body, [Binder(current, u.current), Binder(acc, u.acc)], inner, b, outer);
      }
  }

  lemma SidesOfTwo(first: Binder, second: Binder)
    ensures Lefts([first, second]) == {first.left, second.left} && Rights([first, second]) == {first.right, second.right}
  {
    assert [first, second][1..] == [second] && [second][1..] == [];
    assert Lefts([second]) == {second.left} && Rights([second]) == {second.right};
  }

  lemma {:induction false} BothSides(first: seq<Binder>, rest: seq<Binder>)
    ensures Lefts(first + rest) == Lefts(first) + Lefts(rest) && Rights(first + rest) == Rights(first) + Rights(rest)
  {
    if first == [] {
      assert first + rest == rest;
    } else {
      assert (first + rest)[1..] == first[1..] + rest;
      BothSides(first[1..], rest);
    }
  }

  /** The same for a closure's body; `own` are the parameters the closure itself binds. */
  lemma {:induction false} AlikeUnderInside(t: Term, u: Term, own: seq<Binder>, inner: seq<Binder>, b: Binder, outer: seq<Binder>)
    requires b.right !in Free(u) - Rights(own) - Rights(inner)
    ensures Alike(t, u, own + (inner + [b] + outer))
       <==> Alike(t, u, own + (inner + outer)) && b.left !in Free(t) - Lefts(own) - Lefts(inner)
    decreases t, 1
  {
    BothSides(own, inner);
    assert own + inner + [b] + outer == own + (inner + [b] + outer);
    assert own + inner + outer == own + (inner + outer);
    AlikeInside(t, u, own + inner, b, outer);
  }

  lemma {:induction false} AlikeAllInside(ts: seq<Term>, us: seq<Term>, inner: seq<Binder>, b: Binder, outer: seq<Binder>)
    requires b.right !in FreeIn(us) - Rights(inner)
    ensures AlikeAll(ts, us, inner + [b] + outer) <==> AlikeAll(ts, us, inner + outer) && b.left !in FreeIn(ts) - Lefts(inner)
    decreases ts, 0
  {
    if |ts| == |us| && ts != [] {
      AlikeInside(ts[0], us[0], inner, b, outer);
      AlikeAllInside(ts[1..], us[1..], inner, b, outer);
    }
  }

  // Built terms are alike exactly when their operands are.

  lemma {:induction false} AlikeEach(ts: seq<Term>, us: seq<Term>, stack: seq<Binder>)
    requires |ts| == |us|
    ensures AlikeAll(ts, us, stack) <==> forall i :: 0 <= i < |ts| ==> Alike(ts[i], us[i], stack)
  {
    if ts != [] {
      AlikeEach(ts[1..], us[1..], stack);
      assert forall i :: 0 < i < |ts| ==> ts[i] == ts[1..][i - 1] && us[i] == us[1..][i - 1];
    }
  }

  lemma AlikeOne(a: Term, a': Term, stack: seq<Binder>)
    ensures AlikeAll([a], [a'], stack) <==> Alike(a, a', stack)
  {
    AlikeEach([a], [a'], stack);
  }

  lemma AlikeTwo(a: Term, b: Term, a': Term, b': Term, stack: seq<Binder>)
    ensures AlikeAll([a, b], [a', b'], stack) <==> Alike(a, a', stack) && Alike(b, b', stack)
  {
    AlikeOne(b, b', stack);
    assert [a, b][1..] == [b] && [a', b'][1..] == [b'];
  }

  lemma AlikeCons(t: Term, ts: seq<Term>, u: Term, us: seq<Term>, stack: seq<Binder>)
    ensures AlikeAll([t] + ts, [u] + us, stack) <==> Alike(t, u, stack) && AlikeAll(ts, us, stack)
  {
    assert ([t] + ts)[1..] == ts && ([u] + us)[1..] == us;
  }

  lemma {:induction false} AlikeLast(ts: seq<Term>, t: Term, us: seq<Term>, u: Term, stack: seq<Binder>)
    requires |ts| == |us|
    ensures AlikeAll(ts + [t], us + [u], stack) <==> AlikeAll(ts, us, stack) && Alike(t, u, stack)
  {
    if ts == [] {
      assert ts + [t] == [t] && us + [u] == [u];
    } else {
      assert (ts + [t])[1..] == ts[1..] + [t] && (us + [u])[1..] == us[1..] + [u];
      AlikeLast(ts[1..], t, us[1..], u, stack);
    }
  }

  lemma {:induction false} AlikeChain(fn: Fn, ts: seq<Term>, us: seq<Term>, stack: seq<Binder>)
    requires |ts| == |us| > 0
    ensures Alike(Chain(fn, ts), Chain(fn, us), stack) <==> AlikeAll(ts, us, stack)
  {
    if |ts| == 1 {
      assert ts == [ts[0]] && us == [us[0]];
      AlikeOne(ts[0], us[0], stack);
    } else {
      var n := |ts| - 1;
      AlikeChain(fn, ts[..n], us[..n], stack);
      AlikeTwo(Chain(fn, ts[..n]), ts[n], Chain(fn, us[..n]), us[n], stack);
      AlikeLast(ts[..n], ts[n], us[..n], us[n], stack);
      assert ts == ts[..n] + [ts[n]] && us == us[..n] + [us[n]];
    }
  }

  lemma {:induction false} AlikeCoalesce(ts: seq<Term>, us: seq<Term>, stack: seq<Binder>)
    requires |ts| == |us| > 0
    ensures Alike(CoalesceAll(ts), CoalesceAll(us), stack) <==> AlikeAll(ts, us, stack)
  {
    if |ts| > 1 {
      AlikeCoalesce(ts[1..], us[1..], stack);
    }
  }

  lemma AlikeCanonical(a: Term, a': Term, stack: seq<Binder>)
    ensures Alike(Apply(SortOf, [Apply(DistinctOf, [a])]), Apply(SortOf, [Apply(DistinctOf, [a'])]), stack) <==> Alike(a, a', stack)
  {
    AlikeOne(a, a', stack);
    AlikeOne(Apply(DistinctOf, [a]), Apply(DistinctOf, [a']), stack);
  }

  lemma AlikePair(ts: seq<Term>, us: seq<Term>, i: nat, stack: seq<Binder>)
    requires |ts| == |us| && i < |ts| - 1
    ensures Alike(AdjacentPairs(CanonicalSets(ts))[i], AdjacentPairs(CanonicalSets(us))[i], stack)
       <==> Alike(ts[i], us[i], stack) && Alike(ts[i + 1], us[i + 1], stack)
  {
    AlikeCanonical(ts[i], us[i], stack);
    AlikeCanonical(ts[i + 1], us[i + 1], stack);
    AlikeTwo(CanonicalSets(ts)[i], CanonicalSets(ts)[i + 1], CanonicalSets(us)[i], CanonicalSets(us)[i + 1], stack);
  }

  lemma AlikeSetEquals(ts: seq<Term>, us: seq<Term>, stack: seq<Binder>)
    requires |ts| == |us| > 1
    ensures Alike(Chain(And, AdjacentPairs(CanonicalSets(ts))), Chain(And, AdjacentPairs(CanonicalSets(us))), stack)
       <==> AlikeAll(ts, us, stack)
  {
    var pairs, pairs' := AdjacentPairs(CanonicalSets(ts)), AdjacentPairs(CanonicalSets(us));
    AlikeChain(And, pairs, pairs', stack);
    AlikeEach(pairs, pairs', stack);
    AlikeEach(ts, us, stack);
    forall i: nat | i < |ts| - 1
      ensures Alike(pairs[i], pairs'[i], stack) <==> Alike(ts[i], us[i], stack) && Alike(ts[i + 1], us[i + 1], stack)
    {
      AlikePair(ts, us, i, stack);
    }
    if AlikeAll(pairs, pairs', stack) {
      forall i: nat | i < |ts|
        ensures Alike(ts[i], us[i], stack)
      {
        var j := if i < |pairs| then i else i - 1;
        assert Alike(pairs[j], pairs'[j], stack);
      }
    }
  }

  lemma AlikeDivide(ts: seq<Term>, us: seq<Term>, stack: seq<Binder>)
    requires |ts| == |us| == 2
    ensures Alike(Apply(Over, [Apply(CastFloat, [ts[0]]), ts[1]]), Apply(Over, [Apply(CastFloat, [us[0]]), us[1]]), stack)
       <==> AlikeAll(ts, us, stack)
  {
    AlikeOne(ts[0], us[0], stack);
    AlikeTwo(Apply(CastFloat, [ts[0]]), ts[1], Apply(CastFloat, [us[0]]), us[1], stack);
    AlikeEach(ts, us, stack);
  }

  lemma AlikeSwapped(ts: seq<Term>, us: seq<Term>, stack: seq<Binder>)
    requires |ts| == |us| == 2
    ensures Alike(Apply(ContainsAll, [ts[1], ts[0]]), Apply(ContainsAll, [us[1], us[0]]), stack) <==> AlikeAll(ts, us, stack)
  {
    AlikeTwo(ts[1], ts[0], us[1], us[0], stack);
    AlikeEach(ts, us, stack);
  }

  lemma AlikeBuild(reg: Registry, op: Operator, ts: seq<Term>, us: seq<Term>, stack: seq<Binder>)
    requires |ts| == |us| && Accepts(reg, op, |ts|)
    ensures Alike(Build(reg, op, ts), Build(reg, op, us), stack) <==> AlikeAll(ts, us, stack)
  {
    match op
    case Call(_) =>
    case Add => AlikeChain(Plus, ts, us, stack);
    case Multiply => AlikeChain(Times, ts, us, stack);
    case Divide => AlikeDivide(ts, us, stack);
    case SetUnion => AlikeChain(Union, ts, us, stack);
    case SetIntersection => AlikeChain(Intersect, ts, us, stack);
    case SetDifference => AlikeOne(Apply(Complement, ts), Apply(Complement, us), stack);
    case SetEquals => AlikeSetEquals(ts, us, stack);
    case SetIsSubset => AlikeSwapped(ts, us, stack);
    case MergeObjects => AlikeChain(Extend, ts, us, stack);
    case MakeArray =>
  }
}
