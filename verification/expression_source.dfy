/**
 * MongoDB aggregation expressions and what they mean.
 *
 * The meaning is given directly on documents, with variables bound to values. It
 * is partial: `None` stands for an expression MongoDB refuses at run time (or one
 * whose null handling the translation does not promise to reproduce).
 */
module ExpressionSource {
  import opened Values
  import opened Sequences

  /**
   * Everything about the two servers the translation takes as given.
   *
   * `walk` reads the rest of a path inside a value, `truthy` is the test of a
   * condition, `leq` the order on values, and `mongo`/`surreal` the one-call
   * operators on either side.
   */
  datatype World = World(
    truthy: Value -> bool,
    leq: (Value, Value) -> bool,
    now: Value,
    walk: (Value, seq<string>) -> Value,
    mongo: (string, seq<Value>) -> Option<Value>,
    surreal: (string, seq<Value>) -> Option<Value>)

  /** Operators that evaluate every operand and then combine the values. */
  datatype Operator =
    | Call(name: string)
    | Add
    | Multiply
    | Divide
    | SetUnion
    | SetIntersection
    | SetDifference
    | SetEquals
    | SetIsSubset
    | MergeObjects
    | MakeArray

  datatype Binding = Binding(name: string, value: Expr)

  datatype Branch = Branch(test: Expr, outcome: Expr)

  datatype Expr =
    | Field(path: seq<string>)
    | Variable(name: string)
    | Literal(value: Value)
    | Strict(op: Operator, args: seq<Expr>)
    | Cond(test: Expr, yes: Expr, no: Expr)
    | IfNull(args: seq<Expr>)
    | Switch(branches: seq<Branch>, otherwise: Option<Expr>)
    | MapOver(input: Expr, alias: string, body: Expr)
    | FilterOver(input: Expr, alias: string, body: Expr, limit: Option<Expr>)
    | Reduce(input: Expr, initial: Expr, body: Expr)
    | Let(vars: seq<Binding>, body: Expr)
    | Document(fields: seq<Binding>)

  // Combining values.

  predicate AllNumbers(vs: seq<Value>) {
    forall v :: v in vs ==> v.IsNumber()
  }

  predicate AllWhole(vs: seq<Value>) {
    forall v :: v in vs ==> v.Int?
  }

  predicate AllArrays(vs: seq<Value>) {
    forall v :: v in vs ==> v.Arr?
  }

  predicate AllObjects(vs: seq<Value>) {
    forall v :: v in vs ==> v.Obj?
  }

  function Sum(vs: seq<Value>): real
    requires AllNumbers(vs)
  {
    if vs == [] then 0.0 else Sum(vs[..|vs| - 1]) + vs[|vs| - 1].Quantity()
  }

  function Scale(a: real, b: real): real {
    a * b
  }

  function Product(vs: seq<Value>): real
    requires AllNumbers(vs)
  {
    if vs == [] then 1.0 else Scale(Product(vs[..|vs| - 1]), vs[|vs| - 1].Quantity())
  }

  /** A number result: whole when every operand was. */
  function Tagged(quantity: real, whole: bool): Value {
    if whole then Int(quantity.Floor) else Float(quantity)
  }

  function Flatten(vs: seq<Value>): seq<Value>
    requires AllArrays(vs)
  {
    if vs == [] then [] else Flatten(vs[..|vs| - 1]) + vs[|vs| - 1].items
  }

  predicate InRest(vs: seq<Value>, x: Value)
    requires AllArrays(vs)
  {
    forall i :: 1 <= i < |vs| ==> x in vs[i].items
  }

  /** The first array's elements that every other array has as well. */
  function Common(vs: seq<Value>): seq<Value>
    requires |vs| > 0 && AllArrays(vs)
  {
    Select(vs[0].items, x => InRest(vs, x))
  }

  /** Every array has the same elements, order and repetition aside. */
  predicate SameSets(vs: seq<Value>)
    requires |vs| > 0 && AllArrays(vs)
  {
    forall i :: 0 <= i < |vs| ==> Elements(vs[i].items) == Elements(vs[0].items)
  }

  /** The objects merged left to right, a later field replacing an earlier one. */
  function Merged(vs: seq<Value>): map<string, Value>
    requires AllObjects(vs)
  {
    if vs == [] then map[] else Merged(vs[..|vs| - 1]) + vs[|vs| - 1].fields
  }

  /** A missing value is null inside an array. */
  function NullIfMissing(v: Value): Value {
    if v == Absent then Null else v
  }

  function Filled(vs: seq<Value>): seq<Value> {
    seq(|vs|, i requires 0 <= i < |vs| => NullIfMissing(vs[i]))
  }

  lemma FilledIsSame(vs: seq<Value>)
    ensures Filled(vs) == vs <==> Absent !in vs
  {
    if Filled(vs) == vs {
      assert forall i :: 0 <= i < |vs| ==> Filled(vs)[i] == vs[i];
    }
  }

  /** A field whose value is missing is not there. */
  function PresentFields(fields: map<string, Value>): map<string, Value> {
    map k | k in fields && fields[k] != Absent :: fields[k]
  }

  /** What a strict operator makes of its operands' values. */
  function Meaning(w: World, op: Operator, vs: seq<Value>): Option<Value> {
    match op
    case Call(name) => w.mongo(name, vs)
    case Add =>
      if AllNumbers(vs) then Some(Tagged(Sum(vs), AllWhole(vs))) else None
    case Multiply =>
      if AllNumbers(vs) then Some(Tagged(Product(vs), AllWhole(vs))) else None
    case Divide =>
      if |vs| == 2 && AllNumbers(vs) && vs[1].Quantity() != 0.0
      then Some(Float(vs[0].Quantity() / vs[1].Quantity()))
      else None
    case SetUnion =>
      if AllArrays(vs) then Some(Arr(Distinct(Flatten(vs)))) else None
    case SetIntersection =>
      if vs == [] then Some(Arr([]))
      else if AllArrays(vs) then Some(Arr(Distinct(Common(vs))))
      else None
    case SetDifference =>
      if |vs| == 2 && AllArrays(vs)
      then Some(Arr(Distinct(Select(vs[0].items, x => x !in vs[1].items))))
      else None
    case SetEquals =>
      if |vs| > 1 && AllArrays(vs)
      then Some(Bool(SameSets(vs)))
      else None
    case SetIsSubset =>
      if |vs| == 2 && AllArrays(vs)
      then Some(Bool(Elements(vs[0].items) <= Elements(vs[1].items)))
      else None
    case MergeObjects =>
      if AllObjects(vs) then Some(Obj(Merged(vs))) else None
    case MakeArray => Some(Arr(Filled(vs)))
  }

  /** The elements whose flag is truthy, in order. */
  function Keep(truthy: Value -> bool, xs: seq<Value>, flags: seq<Value>): seq<Value>
    requires |xs| == |flags|
  {
    if xs == [] then []
    else (if truthy(flags[0]) then [xs[0]] else []) + Keep(truthy, xs[1..], flags[1..])
  }

  function FirstOf(xs: seq<Value>, n: int): seq<Value>
    requires n >= 0
  {
    if n < |xs| then xs[..n] else xs
  }

  /** Keeping goes element by element, and keeps an element exactly when its flag is truthy. */
  lemma {:induction false} KeepAppend(truthy: Value -> bool, xs: seq<Value>, flags: seq<Value>, x: Value, flag: Value)
    requires |xs| == |flags|
    ensures Keep(truthy, xs + [x], flags + [flag]) == Keep(truthy, xs, flags) + if truthy(flag) then [x] else []
  {
    if xs == [] {
      assert xs + [x] == [x] && flags + [flag] == [flag] && [x][1..] == [] && [flag][1..] == [];
      assert Keep(truthy, [], []) == [];
    } else {
      assert (xs + [x])[1..] == xs[1..] + [x] && (flags + [flag])[1..] == flags[1..] + [flag];
      KeepAppend(truthy, xs[1..], flags[1..], x, flag);
    }
  }

  /** `places` are those of the truthy flags, in order. */
  ghost predicate TruthyPlaces(truthy: Value -> bool, flags: seq<Value>, places: seq<nat>) {
    && (forall i, j :: 0 <= i < j < |places| ==> places[i] < places[j])
    && (forall k: nat :: k in places <==> k < |flags| && truthy(flags[k]))
  }

  lemma PlacesGrow(truthy: Value -> bool, flags: seq<Value>, flag: Value, places: seq<nat>)
    requires TruthyPlaces(truthy, flags, places)
    ensures TruthyPlaces(truthy, flags + [flag], if truthy(flag) then places + [|flags|] else places)
  {
    forall i | 0 <= i < |places|
      ensures places[i] < |flags|
    {
      var k: nat := places[i];
      assert k in places;
    }
    var after := flags + [flag];
    assert after[|flags|] == flag && forall k :: 0 <= k < |flags| ==> after[k] == flags[k];
  }

  /** What is kept are the elements at the truthy flags, all of them, in order. */
  lemma {:induction false} KeepSelects(truthy: Value -> bool, xs: seq<Value>, flags: seq<Value>) returns (places: seq<nat>)
    requires |xs| == |flags|
    ensures Selected(truthy, xs, flags, places)
  {
    if xs == [] {
      return [];
    }
    var last := |xs| - 1;
    var before := KeepSelects(truthy, xs[..last], flags[..last]);
    assert xs == xs[..last] + [xs[last]] && flags == flags[..last] + [flags[last]];
    places := KeepGrows(truthy, xs[..last], flags[..last], xs[last], flags[last], before);
  }

  lemma KeepGrows(truthy: Value -> bool, xs: seq<Value>, flags: seq<Value>, x: Value, flag: Value, before: seq<nat>) returns (places: seq<nat>)
    requires |xs| == |flags| && Selected(truthy, xs, flags, before)
    ensures Selected(truthy, xs + [x], flags + [flag], places)
  {
    KeepAppend(truthy, xs, flags, x, flag);
    PlacesGrow(truthy, flags, flag, before);
    places := if truthy(flag) then before + [|flags|] else before;
  }

  /** What is kept are the elements at `places`, the truthy flags in order. */
  ghost predicate Selected(truthy: Value -> bool, xs: seq<Value>, flags: seq<Value>, places: seq<nat>)
    requires |xs| == |flags|
  {
    && TruthyPlaces(truthy, flags, places) && |Keep(truthy, xs, flags)| == |places|
    && forall i :: 0 <= i < |places| ==> places[i] < |xs| && Keep(truthy, xs, flags)[i] == xs[places[i]]
  }

  /** The first `n`, or all where there are fewer. */
  lemma FirstOfIs(xs: seq<Value>, n: int)
    requires n >= 0
    ensures |FirstOf(xs, n)| == (if n < |xs| then n else |xs|)
    ensures forall i :: 0 <= i < |FirstOf(xs, n)| ==> FirstOf(xs, n)[i] == xs[i]
  {
  }

  function MakeObject(keys: seq<string>, values: seq<Value>): map<string, Value>
    requires |keys| == |values|
  {
    if keys == [] then map[]
    else MakeObject(keys[..|keys| - 1], values[..|keys| - 1])[keys[|keys| - 1] := values[|keys| - 1]]
  }

  function Names(bs: seq<Binding>): seq<string> {
    seq(|bs|, i requires 0 <= i < |bs| => bs[i].name)
  }

  /** `env` with each name bound to its value; a later name replaces an earlier one. */
  function BindAll<T>(names: seq<string>, values: seq<T>, env: map<string, T>): map<string, T>
    requires |names| == |values|
  {
    if names == [] then env else BindAll(names[1..], values[1..], env[names[0] := values[0]])
  }

  /** A name bound has the last of the values bound to it, and one not bound what it had. */
  lemma {:induction false} BoundTo<T>(names: seq<string>, values: seq<T>, env: map<string, T>, n: string, i: nat)
    requires |names| == |values| && i < |names| && names[i] == n && n !in names[i + 1..]
    ensures n in BindAll(names, values, env) && BindAll(names, values, env)[n] == values[i]
  {
    if i > 0 {
      assert names[1..][i - 1 + 1..] == names[i + 1..];
      BoundTo(names[1..], values[1..], env[names[0] := values[0]], n, i - 1);
    } else {
      UnboundKeeps(names[1..], values[1..], env[names[0] := values[0]], n);
    }
  }

  lemma {:induction false} UnboundKeeps<T>(names: seq<string>, values: seq<T>, env: map<string, T>, n: string)
    requires |names| == |values| && n !in names
    ensures (n in BindAll(names, values, env) <==> n in env) && (n in env ==> BindAll(names, values, env)[n] == env[n])
  {
    if names != [] {
      UnboundKeeps(names[1..], values[1..], env[names[0] := values[0]], n);
    }
  }

  /** The field a path names, read from a document or a stored row. */
  function ReadPath(w: World, columns: map<string, Value>, path: seq<string>): Value {
    if path == [] || path[0] !in columns then Absent
    else if |path| == 1 then columns[path[0]]
    else w.walk(columns[path[0]], path[1..])
  }

  // Evaluation.

  /**
   * What a missing value put into an array or an object comes to: `Converted` is
   * MongoDB's answer, null in an array and no field in an object; `Rejected` gives
   * such an expression no meaning, and tells those apart that never meet the case.
   */
  datatype Missing = Converted | Rejected

  predicate Stops(m: Missing, vs: seq<Value>) {
    m.Rejected? && Absent in vs
  }

  function Eval(e: Expr, w: World, m: Missing, doc: map<string, Value>, env: map<string, Value>): Option<Value>
    decreases e, 0, 0
  {
    match e
    case Field(path) => Some(ReadPath(w, doc, path))
    case Variable(name) =>
      if name in env then Some(env[name])
      else if name == "NOW" then Some(w.now)
      else None
    case Literal(value) => Some(value)
    case Strict(op, args) =>
      var values :- EvalAll(args, w, m, doc, env);
      if op.MakeArray? && Stops(m, values) then None else Meaning(w, op, values)
    case Cond(test, yes, no) =>
      var flag :- Eval(test, w, m, doc, env);
      if w.truthy(flag) then Eval(yes, w, m, doc, env) else Eval(no, w, m, doc, env)
    case IfNull(args) => if |args| < 2 then None else EvalFirst(args, w, m, doc, env)
    case Switch(branches, otherwise) =>
      if branches == [] then None else
      var chosen :- EvalSwitch(branches, w, m, doc, env);
      if chosen.Some? then chosen
      else if otherwise.Some? then Eval(otherwise.value, w, m, doc, env)
      else None
    case MapOver(input, alias, body) =>
      var source :- Eval(input, w, m, doc, env);
      if !source.Arr? then None else
      var results :- EvalEach(body, alias, source.items, w, m, doc, env);
      if Stops(m, results) then None else Some(Arr(Filled(results)))
    case FilterOver(input, alias, body, limit) =>
      var source :- Eval(input, w, m, doc, env);
      if !source.Arr? then None else
      var flags :- EvalEach(body, alias, source.items, w, m, doc, env);
      var kept := Keep(w.truthy, source.items, flags);
      if limit.None? then Some(Arr(kept)) else
      var n :- Eval(limit.value, w, m, doc, env);
      if n.Int? && n.whole > 0 then Some(Arr(FirstOf(kept, n.whole))) else None
    case Reduce(input, initial, body) =>
      var seed :- Eval(initial, w, m, doc, env);
      var source :- Eval(input, w, m, doc, env);
      if !source.Arr? then None else EvalFold(body, seed, source.items, w, m, doc, env)
    case Let(vars, body) =>
      var values :- EvalBindings(vars, w, m, doc, env);
      Eval(body, w, m, doc, BindAll(Names(vars), values, env))
    case Document(fields) =>
      var values :- EvalBindings(fields, w, m, doc, env);
      if Stops(m, values) then None else Some(Obj(PresentFields(MakeObject(Names(fields), values))))
  }

  function EvalAll(es: seq<Expr>, w: World, m: Missing, doc: map<string, Value>, env: map<string, Value>): (r: Option<seq<Value>>)
    ensures r.Some? ==> |r.value| == |es|
    decreases es, 0, 0
  {
    if es == [] then Some([]) else
    var head :- Eval(es[0], w, m, doc, env);
    var tail :- EvalAll(es[1..], w, m, doc, env);
    Some([head] + tail)
  }

  function EvalBindings(bs: seq<Binding>, w: World, m: Missing, doc: map<string, Value>, env: map<string, Value>): (r: Option<seq<Value>>)
    ensures r.Some? ==> |r.value| == |bs|
    decreases bs, 0, 0
  {
    if bs == [] then Some([]) else
    var head :- Eval(bs[0].value, w, m, doc, env);
    var tail :- EvalBindings(bs[1..], w, m, doc, env);
    Some([head] + tail)
  }

  /** The first operand that is not nullish, or the last one. */
  function EvalFirst(es: seq<Expr>, w: World, m: Missing, doc: map<string, Value>, env: map<string, Value>): Option<Value>
    decreases es, 0, 0
  {
    if es == [] then None else
    var head :- Eval(es[0], w, m, doc, env);
    if |es| == 1 || !head.Nullish() then Some(head) else EvalFirst(es[1..], w, m, doc, env)
  }

  /** `Some(Some(v))` when a branch answers, `Some(None)` when none applies. */
  function EvalSwitch(branches: seq<Branch>, w: World, m: Missing, doc: map<string, Value>, env: map<string, Value>): Option<Option<Value>>
    decreases branches, 0, 0
  {
    if branches == [] then Some(None) else
    var answer :- EvalBranch(branches[0], w, m, doc, env);
    if answer.Some? then Some(answer) else EvalSwitch(branches[1..], w, m, doc, env)
  }

  function EvalBranch(branch: Branch, w: World, m: Missing, doc: map<string, Value>, env: map<string, Value>): Option<Option<Value>>
    decreases branch, 0, 0
  {
    var flag :- Eval(branch.test, w, m, doc, env);
    if !w.truthy(flag) then Some(None) else
    var answer :- Eval(branch.outcome, w, m, doc, env);
    Some(Some(answer))
  }

  /** `body` for each element in turn, with `alias` naming the element. */
  function EvalEach(body: Expr, alias: string, xs: seq<Value>, w: World, m: Missing, doc: map<string, Value>, env: map<string, Value>): (r: Option<seq<Value>>)
    ensures r.Some? ==> |r.value| == |xs|
    decreases body, 1, |xs|
  {
    if xs == [] then Some([]) else
    var head :- Eval(body, w, m, doc, env[alias := xs[0]]);
    var tail :- EvalEach(body, alias, xs[1..], w, m, doc, env);
    Some([head] + tail)
  }

  /** A left fold, with `$$value` the accumulator and `$$this` the element. */
  function EvalFold(body: Expr, acc: Value, xs: seq<Value>, w: World, m: Missing, doc: map<string, Value>, env: map<string, Value>): Option<Value>
    decreases body, 1, |xs|
  {
    if xs == [] then Some(acc) else
    var next :- Eval(body, w, m, doc, env["value" := acc]["this" := xs[0]]);
    EvalFold(body, next, xs[1..], w, m, doc, env)
  }

  // What a defined closure operator was evaluated from.

  lemma StrictMeaning(e: Expr, w: World, m: Missing, doc: map<string, Value>, env: map<string, Value>) returns (values: seq<Value>)
    requires e.Strict? && Eval(e, w, m, doc, env).Some?
    ensures EvalAll(e.args, w, m, doc, env) == Some(values) && !(e.op.MakeArray? && Stops(m, values))
    ensures Eval(e, w, m, doc, env) == Meaning(w, e.op, values)
  {
    values := EvalAll(e.args, w, m, doc, env).value;
  }

  lemma MapMeaning(e: Expr, w: World, m: Missing, doc: map<string, Value>, env: map<string, Value>)
    returns (items: seq<Value>, results: seq<Value>)
    requires e.MapOver? && Eval(e, w, m, doc, env).Some?
    ensures Eval(e.input, w, m, doc, env) == Some(Arr(items))
    ensures EvalEach(e.body, e.alias, items, w, m, doc, env) == Some(results) && !Stops(m, results)
    ensures Eval(e, w, m, doc, env) == Some(Arr(Filled(results)))
  {
    items := Eval(e.input, w, m, doc, env).value.items;
    results := EvalEach(e.body, e.alias, items, w, m, doc, env).value;
  }

  lemma FilterMeaning(e: Expr, w: World, m: Missing, doc: map<string, Value>, env: map<string, Value>)
    returns (items: seq<Value>, flags: seq<Value>, n: Value)
    requires e.FilterOver? && Eval(e, w, m, doc, env).Some?
    ensures Eval(e.input, w, m, doc, env) == Some(Arr(items))
    ensures EvalEach(e.body, e.alias, items, w, m, doc, env) == Some(flags) && |flags| == |items|
    ensures e.limit.None? ==> Eval(e, w, m, doc, env) == Some(Arr(Keep(w.truthy, items, flags)))
    ensures e.limit.Some? ==> Eval(e.limit.value, w, m, doc, env) == Some(n) && n.Int? && n.whole > 0
    ensures e.limit.Some? ==> Eval(e, w, m, doc, env) == Some(Arr(FirstOf(Keep(w.truthy, items, flags), n.whole)))
  {
    items := Eval(e.input, w, m, doc, env).value.items;
    flags := EvalEach(e.body, e.alias, items, w, m, doc, env).value;
    n := if e.limit.Some? then Eval(e.limit.value, w, m, doc, env).value else Null;
  }

  lemma ReduceMeaning(e: Expr, w: World, m: Missing, doc: map<string, Value>, env: map<string, Value>)
    returns (seed: Value, items: seq<Value>)
    requires e.Reduce? && Eval(e, w, m, doc, env).Some?
    ensures Eval(e.initial, w, m, doc, env) == Some(seed)
    ensures Eval(e.input, w, m, doc, env) == Some(Arr(items))
    ensures Eval(e, w, m, doc, env) == EvalFold(e.body, seed, items, w, m, doc, env)
  {
    seed := Eval(e.initial, w, m, doc, env).value;
    items := Eval(e.input, w, m, doc, env).value.items;
  }
}
