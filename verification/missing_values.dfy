/**
 * Missing values: MongoDB makes them null inside an array and leaves them out of an
 * object, and an expression that never puts one there is read alike either way.
 */
module MissingValues {
  import opened Values
  import opened ExpressionSource

  /** The expression has a value, and puts no missing value into an array or an object on the way. */
  predicate Complete(e: Expr, w: World, doc: map<string, Value>, env: map<string, Value>) {
    Eval(e, w, Rejected, doc, env).Some?
  }

  lemma {:induction false} ObjectValues(keys: seq<string>, values: seq<Value>)
    requires |keys| == |values|
    ensures forall k :: k in MakeObject(keys, values) ==> k in keys && MakeObject(keys, values)[k] in values
  {
    if keys != [] {
      ObjectValues(keys[..|keys| - 1], values[..|keys| - 1]);
    }
  }

  /** An object is its own present fields when no value put into it is missing. */
  lemma AllPresent(keys: seq<string>, values: seq<Value>)
    requires |keys| == |values| && Absent !in values
    ensures PresentFields(MakeObject(keys, values)) == MakeObject(keys, values)
  {
    ObjectValues(keys, values);
  }

  // Where no missing value is put anywhere, both readings are one.

  lemma {:induction false} CompleteIsConverted(e: Expr, w: World, doc: map<string, Value>, env: map<string, Value>)
    requires Eval(e, w, Rejected, doc, env).Some?
    ensures Eval(e, w, Converted, doc, env) == Eval(e, w, Rejected, doc, env)
    decreases e, 2, 0
  {
    match e
    case Field(_) =>
    case Variable(_) =>
    case Literal(_) =>
    case Strict(_, args) => AllConverted(args, w, doc, env);
    case Cond(_, _, _) => CondConverted(e, w, doc, env);
    case IfNull(args) => FirstConverted(args, w, doc, env);
    case Switch(branches, otherwise) =>
      SwitchConverted(branches, w, doc, env);
      if EvalSwitch(branches, w, Rejected, doc, env).value.None? && otherwise.Some? {
        CompleteIsConverted(otherwise.value, w, doc, env);
      }
    case MapOver(_, _, _) => MapConverted(e, w, doc, env);
    case FilterOver(_, _, _, _) => FilterConverted(e, w, doc, env);
    case Reduce(_, _, _) => ReduceConverted(e, w, doc, env);
    case Let(vars, body) =>
      BindingsConverted(vars, w, doc, env);
      CompleteIsConverted(body, w, doc, BindAll(Names(vars), EvalBindings(vars, w, Rejected, doc, env).value, env));
    case Document(fields) => BindingsConverted(fields, w, doc, env);
  }

  lemma {:induction false} CondConverted(e: Expr, w: World, doc: map<string, Value>, env: map<string, Value>)
    requires e.Cond? && Eval(e, w, Rejected, doc, env).Some?
    ensures Eval(e, w, Converted, doc, env) == Eval(e, w, Rejected, doc, env)
    decreases e, 1, 0
  {
    CompleteIsConverted(e.test, w, doc, env);
    CompleteIsConverted(if w.truthy(Eval(e.test, w, Rejected, doc, env).value) then e.yes else e.no, w, doc, env);
  }

  lemma {:induction false} MapConverted(e: Expr, w: World, doc: map<string, Value>, env: map<string, Value>)
    requires e.MapOver? && Eval(e, w, Rejected, doc, env).Some?
    ensures Eval(e, w, Converted, doc, env) == Eval(e, w, Rejected, doc, env)
    decreases e, 1, 0
  {
    var items, _ := MapMeaning(e, w, Rejected, doc, env);
    CompleteIsConverted(e.input, w, doc, env);
    EachConverted(e.body, e.alias, items, w, doc, env);
  }

  lemma {:induction false} ReduceConverted(e: Expr, w: World, doc: map<string, Value>, env: map<string, Value>)
    requires e.Reduce? && Eval(e, w, Rejected, doc, env).Some?
    ensures Eval(e, w, Converted, doc, env) == Eval(e, w, Rejected, doc, env)
    decreases e, 1, 0
  {
    var seed, items := ReduceMeaning(e, w, Rejected, doc, env);
    CompleteIsConverted(e.input, w, doc, env);
    CompleteIsConverted(e.initial, w, doc, env);
    FoldConverted(e.body, seed, items, w, doc, env);
  }

  lemma {:induction false} FilterConverted(e: Expr, w: World, doc: map<string, Value>, env: map<string, Value>)
    requires e.FilterOver? && Eval(e, w, Rejected, doc, env).Some?
    ensures Eval(e, w, Converted, doc, env) == Eval(e, w, Rejected, doc, env)
    decreases e, 1, 0
  {
    var items, flags, n := FilterMeaning(e, w, Rejected, doc, env);
    CompleteIsConverted(e.input, w, doc, env);
    EachConverted(e.body, e.alias, items, w, doc, env);
    if e.limit.Some? {
      CompleteIsConverted(e.limit.value, w, doc, env);
    }
  }

  lemma {:induction false} AllConverted(es: seq<Expr>, w: World, doc: map<string, Value>, env: map<string, Value>)
    requires EvalAll(es, w, Rejected, doc, env).Some?
    ensures EvalAll(es, w, Converted, doc, env) == EvalAll(es, w, Rejected, doc, env)
    decreases es, 0, 0
  {
    if es != [] {
      CompleteIsConverted(es[0], w, doc, env);
      AllConverted(es[1..], w, doc, env);
    }
  }

  lemma {:induction false} BindingsConverted(bs: seq<Binding>, w: World, doc: map<string, Value>, env: map<string, Value>)
    requires EvalBindings(bs, w, Rejected, doc, env).Some?
    ensures EvalBindings(bs, w, Converted, doc, env) == EvalBindings(bs, w, Rejected, doc, env)
    decreases bs, 0, 0
  {
    if bs != [] {
      CompleteIsConverted(bs[0].value, w, doc, env);
      BindingsConverted(bs[1..], w, doc, env);
    }
  }

  lemma {:induction false} FirstConverted(es: seq<Expr>, w: World, doc: map<string, Value>, env: map<string, Value>)
    requires EvalFirst(es, w, Rejected, doc, env).Some?
    ensures EvalFirst(es, w, Converted, doc, env) == EvalFirst(es, w, Rejected, doc, env)
    decreases es, 0, 0
  {
    if es != [] {
      CompleteIsConverted(es[0], w, doc, env);
      if |es| > 1 && Eval(es[0], w, Rejected, doc, env).value.Nullish() {
        FirstConverted(es[1..], w, doc, env);
      }
    }
  }

  lemma {:induction false} SwitchConverted(bs: seq<Branch>, w: World, doc: map<string, Value>, env: map<string, Value>)
    requires EvalSwitch(bs, w, Rejected, doc, env).Some?
    ensures EvalSwitch(bs, w, Converted, doc, env) == EvalSwitch(bs, w, Rejected, doc, env)
    decreases bs, 0, 0
  {
    if bs != [] {
      BranchConverted(bs[0], w, doc, env);
      if EvalBranch(bs[0], w, Rejected, doc, env).value.None? {
        SwitchConverted(bs[1..], w, doc, env);
      }
    }
  }

  lemma {:induction false} BranchConverted(b: Branch, w: World, doc: map<string, Value>, env: map<string, Value>)
    requires EvalBranch(b, w, Rejected, doc, env).Some?
    ensures EvalBranch(b, w, Converted, doc, env) == EvalBranch(b, w, Rejected, doc, env)
    decreases b, 0, 0
  {
    CompleteIsConverted(b.test, w, doc, env);
    if w.truthy(Eval(b.test, w, Rejected, doc, env).value) {
      CompleteIsConverted(b.outcome, w, doc, env);
    }
  }

  lemma {:induction false} EachConverted(body: Expr, alias: string, xs: seq<Value>, w: World, doc: map<string, Value>, env: map<string, Value>)
    requires EvalEach(body, alias, xs, w, Rejected, doc, env).Some?
    ensures EvalEach(body, alias, xs, w, Converted, doc, env) == EvalEach(body, alias, xs, w, Rejected, doc, env)
    decreases body, 3, |xs|
  {
    if xs != [] {
      CompleteIsConverted(body, w, doc, env[alias := xs[0]]);
      EachConverted(body, alias, xs[1..], w, doc, env);
    }
  }

  lemma {:induction false} FoldConverted(body: Expr, acc: Value, xs: seq<Value>, w: World, doc: map<string, Value>, env: map<string, Value>)
    requires EvalFold(body, acc, xs, w, Rejected, doc, env).Some?
    ensures EvalFold(body, acc, xs, w, Converted, doc, env) == EvalFold(body, acc, xs, w, Rejected, doc, env)
    decreases body, 3, |xs|
  {
    if xs != [] {
      var inner := env["value" := acc]["this" := xs[0]];
      CompleteIsConverted(body, w, doc, inner);
      FoldConverted(body, Eval(body, w, Rejected, doc, inner).value, xs[1..], w, doc, env);
    }
  }
}
