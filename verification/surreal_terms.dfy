/**
 * The SurrealQL expressions the compiler emits, and what the server computes for
 * them. Closures bind numbered parameters (`$mql_v0`, `$mql_v1`, ...); a bound
 * literal is a statement parameter of its own and therefore just a value.
 */
module SurrealTerms {
  import opened Values
  import opened Sequences
  import opened ExpressionSource

  /** Functions, infix operators and literals that evaluate all their operands. */
  datatype Fn =
    | Named(name: string)
    | Plus
    | Times
    | Over
    | CastFloat
    | And
    | Equal
    | ContainsAll
    | DistinctOf
    | SortOf
    | Union
    | Intersect
    | Complement
    | Concat
    | Slice
    | Extend
    | ArrayLiteral
    | ObjectLiteral(keys: seq<string>)

  datatype Term =
    | Idiom(path: seq<string>)
    | Param(index: nat)
    | Bound(value: Value)
    | TimeNow
    | Apply(fn: Fn, args: seq<Term>)
    | If(test: Term, yes: Term, no: Term)
    | Coalesce(first: Term, fallback: Term)
    | ArrayMap(input: Term, param: nat, body: Term)
    | ArrayFilter(input: Term, param: nat, body: Term)
    | ArrayReduce(input: Term, acc: nat, current: nat, body: Term)

  /** SurrealQL's `/`: truncating on two whole numbers, exact otherwise. */
  function Quotient(a: Value, b: Value): Option<Value> {
    if !a.IsNumber() || !b.IsNumber() || b.Quantity() == 0.0 then None
    else if a.Int? && b.Int? then
      Some(Int(if (a.whole >= 0) == (b.whole > 0) then Abs(a.whole) / Abs(b.whole) else -(Abs(a.whole) / Abs(b.whole))))
    else Some(Float(a.Quantity() / b.Quantity()))
  }

  /** The elements of `a` that `b` has too. */
  function Within(a: seq<Value>, b: seq<Value>): seq<Value> {
    Select(a, x => x in b)
  }

  function Abs(n: int): nat {
    if n < 0 then -n else n
  }

  function Binary(w: World, fn: Fn, a: Value, b: Value): Option<Value> {
    match fn
    case Plus =>
      if a.Int? && b.Int? then Some(Int(a.whole + b.whole))
      else if a.IsNumber() && b.IsNumber() then Some(Float(a.Quantity() + b.Quantity())) else None
    case Times =>
      if a.Int? && b.Int? then Some(Int(a.whole * b.whole))
      else if a.IsNumber() && b.IsNumber() then Some(Float(Scale(a.Quantity(), b.Quantity()))) else None
    case Over => Quotient(a, b)
    case And => if a.Bool? && b.Bool? then Some(Bool(a.flag && b.flag)) else None
    case Equal => Some(Bool(a == b))
    case ContainsAll =>
      if a.Arr? && b.Arr? then Some(Bool(forall x :: x in b.items ==> x in a.items)) else None
    case Union => if a.Arr? && b.Arr? then Some(Arr(Distinct(a.items + b.items))) else None
    case Intersect =>
      if a.Arr? && b.Arr? then Some(Arr(Distinct(Within(a.items, b.items)))) else None
    case Complement =>
      if a.Arr? && b.Arr? then Some(Arr(Select(a.items, x => x !in b.items))) else None
    case Concat => if a.Arr? && b.Arr? then Some(Arr(a.items + b.items)) else None
    case Extend => if a.Obj? && b.Obj? then Some(Obj(a.fields + b.fields)) else None
    case _ => None
  }

  /** What a strict function answers for its operands' values. */
  function Answer(w: World, fn: Fn, vs: seq<Value>): Option<Value> {
    match fn
    case Named(name) => w.surreal(name, vs)
    case CastFloat =>
      if |vs| == 1 && vs[0].IsNumber() then Some(Float(vs[0].Quantity())) else None
    case DistinctOf =>
      if |vs| == 1 && vs[0].Arr? then Some(Arr(Distinct(vs[0].items))) else None
    case SortOf =>
      if |vs| == 1 && vs[0].Arr? then Some(Arr(Sort(vs[0].items, w.leq))) else None
    case Slice =>
      if |vs| == 3 && vs[0].Arr? && vs[1] == Int(0) && vs[2].Int? && vs[2].whole >= 0
      then Some(Arr(FirstOf(vs[0].items, vs[2].whole)))
      else None
    case ArrayLiteral => Some(Arr(vs))
    case ObjectLiteral(keys) =>
      if |keys| == |vs| then Some(Obj(MakeObject(keys, vs))) else None
    case _ => if |vs| == 2 then Binary(w, fn, vs[0], vs[1]) else None
  }

  type Params = map<nat, Value>

  function EvalTerm(t: Term, w: World, row: map<string, Value>, params: Params): Option<Value>
    decreases t, 0, 0
  {
    match t
    case Idiom(path) => Some(ReadPath(w, row, path))
    case Param(index) => if index in params then Some(params[index]) else None
    case Bound(value) => Some(value)
    case TimeNow => Some(w.now)
    case Apply(fn, args) =>
      var values :- EvalTerms(args, w, row, params);
      Answer(w, fn, values)
    case If(test, yes, no) =>
      var flag :- EvalTerm(test, w, row, params);
      if w.truthy(flag) then EvalTerm(yes, w, row, params) else EvalTerm(no, w, row, params)
    case Coalesce(first, fallback) =>
      var value :- EvalTerm(first, w, row, params);
      if value.Nullish() then EvalTerm(fallback, w, row, params) else Some(value)
    case ArrayMap(input, param, body) =>
      var source :- EvalTerm(input, w, row, params);
      if !source.Arr? then None else
      var results :- EvalClosure(body, param, source.items, w, row, params);
      Some(Arr(results))
    case ArrayFilter(input, param, body) =>
      var source :- EvalTerm(input, w, row, params);
      if !source.Arr? then None else
      var flags :- EvalClosure(body, param, source.items, w, row, params);
      Some(Arr(Keep(w.truthy, source.items, flags)))
    case ArrayReduce(input, acc, current, body) =>
      var source :- EvalTerm(input, w, row, params);
      if !source.Arr? then None
      else if source.items == [] then Some(Absent)
      else EvalReduce(body, acc, current, source.items[0], source.items[1..], w, row, params)
  }

  function EvalTerms(ts: seq<Term>, w: World, row: map<string, Value>, params: Params): (r: Option<seq<Value>>)
    ensures r.Some? ==> |r.value| == |ts|
    decreases ts, 0, 0
  {
    if ts == [] then Some([]) else
    var head :- EvalTerm(ts[0], w, row, params);
    var tail :- EvalTerms(ts[1..], w, row, params);
    Some([head] + tail)
  }

  function EvalClosure(body: Term, param: nat, xs: seq<Value>, w: World, row: map<string, Value>, params: Params): (r: Option<seq<Value>>)
    ensures r.Some? ==> |r.value| == |xs|
    decreases body, 1, |xs|
  {
    if xs == [] then Some([]) else
    var head :- EvalTerm(body, w, row, params[param := xs[0]]);
    var tail :- EvalClosure(body, param, xs[1..], w, row, params);
    Some([head] + tail)
  }

  /** The first element seeds the fold; the closure runs for each one after it. */
  function EvalReduce(body: Term, acc: nat, current: nat, seed: Value, xs: seq<Value>, w: World, row: map<string, Value>, params: Params): Option<Value>
    decreases body, 1, |xs|
  {
    if xs == [] then Some(seed) else
    var next :- EvalTerm(body, w, row, params[acc := seed][current := xs[0]]);
    EvalReduce(body, acc, current, next, xs[1..], w, row, params)
  }

  // Free parameters.

  function Free(t: Term): set<nat>
    decreases t
  {
    match t
    case Idiom(_) => {}
    case Param(index) => {index}
    case Bound(_) => {}
    case TimeNow => {}
    case Apply(_, args) => FreeIn(args)
    case If(test, yes, no) => Free(test) + Free(yes) + Free(no)
    case Coalesce(first, fallback) => Free(first) + Free(fallback)
    case ArrayMap(input, param, body) => Free(input) + (Free(body) - {param})
    case ArrayFilter(input, param, body) => Free(input) + (Free(body) - {param})
    case ArrayReduce(input, acc, current, body) => Free(input) + (Free(body) - {acc, current})
  }

  function FreeIn(ts: seq<Term>): set<nat>
    decreases ts
  {
    if ts == [] then {} else Free(ts[0]) + FreeIn(ts[1..])
  }

  predicate Agree(p: Params, q: Params, on: set<nat>) {
    forall k :: k in on ==> (k in p <==> k in q) && (k in p ==> p[k] == q[k])
  }

  /** A term's value depends on its free parameters only. */
  lemma {:induction false} OnlyFreeMatters(t: Term, w: World, row: map<string, Value>, p: Params, q: Params)
    requires Agree(p, q, Free(t))
    ensures EvalTerm(t, w, row, p) == EvalTerm(t, w, row, q)
    decreases t, 2, 0
  {
    match t
    case Idiom(_) =>
    case Param(_) =>
    case Bound(_) =>
    case TimeNow =>
    case Apply(_, args) =>
      OnlyFreeMattersAll(args, w, row, p, q);
    case If(test, yes, no) =>
      OnlyFreeMatters(test, w, row, p, q);
      OnlyFreeMatters(yes, w, row, p, q);
      OnlyFreeMatters(no, w, row, p, q);
    case Coalesce(first, fallback) =>
      OnlyFreeMatters(first, w, row, p, q);
      OnlyFreeMatters(fallback, w, row, p, q);
    case ArrayMap(_, _, _) =>
      OnlyFreeMattersMapped(t, w, row, p, q);
    case ArrayFilter(_, _, _) =>
      OnlyFreeMattersMapped(t, w, row, p, q);
    case ArrayReduce(_, _, _, _) =>
      OnlyFreeMattersReduce(t, w, row, p, q);
  }

  lemma {:induction false} OnlyFreeMattersMapped(t: Term, w: World, row: map<string, Value>, p: Params, q: Params)
    requires (t.ArrayMap? || t.ArrayFilter?) && Agree(p, q, Free(t))
    ensures EvalTerm(t, w, row, p) == EvalTerm(t, w, row, q)
    decreases t, 0
  {
    OnlyFreeMatters(t.input, w, row, p, q);
    var source := EvalTerm(t.input, w, row, p);
    if source.Some? && source.value.Arr? {
      OnlyFreeMattersEach(t.body, t.param, source.value.items, w, row, p, q);
    }
  }

  lemma {:induction false} OnlyFreeMattersReduce(t: Term, w: World, row: map<string, Value>, p: Params, q: Params)
    requires t.ArrayReduce? && Agree(p, q, Free(t))
    ensures EvalTerm(t, w, row, p) == EvalTerm(t, w, row, q)
    decreases t, 0
  {
    OnlyFreeMatters(t.input, w, row, p, q);
    var source := EvalTerm(t.input, w, row, p);
    if source.Some? && source.value.Arr? && source.value.items != [] {
      OnlyFreeMattersFold(t.body, t.acc, t.current, source.value.items[0], source.value.items[1..], w, row, p, q);
    }
  }

  lemma {:induction false} OnlyFreeMattersAll(ts: seq<Term>, w: World, row: map<string, Value>, p: Params, q: Params)
    requires Agree(p, q, FreeIn(ts))
    ensures EvalTerms(ts, w, row, p) == EvalTerms(ts, w, row, q)
    decreases ts, 0, 0
  {
    if ts != [] {
      OnlyFreeMatters(ts[0], w, row, p, q);
      OnlyFreeMattersAll(ts[1..], w, row, p, q);
    }
  }

  lemma {:induction false} OnlyFreeMattersEach(body: Term, param: nat, xs: seq<Value>, w: World, row: map<string, Value>, p: Params, q: Params)
    requires Agree(p, q, Free(body) - {param})
    ensures EvalClosure(body, param, xs, w, row, p) == EvalClosure(body, param, xs, w, row, q)
    decreases body, 3, |xs|
  {
    if xs != [] {
      OnlyFreeMatters(body, w, row, p[param := xs[0]], q[param := xs[0]]);
      OnlyFreeMattersEach(body, param, xs[1..], w, row, p, q);
    }
  }

  lemma AgreeOnBoth(p: Params, q: Params, on: set<nat>, j: nat, x: Value, k: nat, y: Value)
    requires Agree(p, q, on - {j, k})
    ensures Agree(p[j := x][k := y], q[j := x][k := y], on)
  {
  }

  lemma {:induction false} OnlyFreeMattersFold(body: Term, acc: nat, current: nat, seed: Value, xs: seq<Value>, w: World, row: map<string, Value>, p: Params, q: Params)
    requires Agree(p, q, Free(body) - {acc, current})
    ensures EvalReduce(body, acc, current, seed, xs, w, row, p) == EvalReduce(body, acc, current, seed, xs, w, row, q)
    decreases body, 3, |xs|
  {
    if xs != [] {
      AgreeOnBoth(p, q, Free(body), acc, seed, current, xs[0]);
      OnlyFreeMatters(body, w, row, p[acc := seed][current := xs[0]], q[acc := seed][current := xs[0]]);
      var next := EvalTerm(body, w, row, p[acc := seed][current := xs[0]]);
      if next.Some? {
        OnlyFreeMattersFold(body, acc, current, next.value, xs[1..], w, row, p, q);
      }
    }
  }
}
