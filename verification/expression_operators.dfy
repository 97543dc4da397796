/**
 * Strict operators: the term built for an operator computes what the operator
 * means, whenever it means something.
 */
module ExpressionOperators {
  import opened Values
  import opened Sequences
  import opened ExpressionSource
  import opened SurrealTerms
  import opened ExpressionCompiler

  /** Each registered one-call operator and the function it becomes answer alike. */
  ghost predicate Agrees(w: World, reg: Registry) {
    forall name, vs :: name in reg && w.mongo(name, vs).Some? ==> w.surreal(reg[name].target, vs) == w.mongo(name, vs)
  }

  predicate TwoOperand(fn: Fn) {
    fn.Plus? || fn.Times? || fn.Union? || fn.Intersect? || fn.Extend? || fn.And?
  }

  /** A left fold of a two-operand function over values. */
  function ChainValue(w: World, fn: Fn, vs: seq<Value>): Option<Value>
    requires |vs| > 0
  {
    if |vs| == 1 then Some(vs[0]) else
    var front :- ChainValue(w, fn, vs[..|vs| - 1]);
    Binary(w, fn, front, vs[|vs| - 1])
  }

  lemma {:induction false} EvalTermsAt(ts: seq<Term>, w: World, row: map<string, Value>, params: Params)
    ensures EvalTerms(ts, w, row, params).Some? <==> forall i :: 0 <= i < |ts| ==> EvalTerm(ts[i], w, row, params).Some?
    ensures EvalTerms(ts, w, row, params).Some? ==>
              forall i :: 0 <= i < |ts| ==> EvalTerm(ts[i], w, row, params) == Some(EvalTerms(ts, w, row, params).value[i])
  {
    if ts != [] {
      EvalTermsAt(ts[1..], w, row, params);
      assert forall i :: 0 < i < |ts| ==> ts[i] == ts[1..][i - 1];
      if forall i :: 0 <= i < |ts| ==> EvalTerm(ts[i], w, row, params).Some? {
        assert forall i :: 0 <= i < |ts[1..]| ==> ts[1..][i] == ts[i + 1];
      }
    }
  }

  lemma EvalTermsIs(ts: seq<Term>, vs: seq<Value>, w: World, row: map<string, Value>, params: Params)
    requires |ts| == |vs|
    requires forall i :: 0 <= i < |ts| ==> EvalTerm(ts[i], w, row, params) == Some(vs[i])
    ensures EvalTerms(ts, w, row, params) == Some(vs)
  {
    EvalTermsAt(ts, w, row, params);
    assert EvalTerms(ts, w, row, params).value == vs;
  }

  lemma {:induction false} ChainEvaluates(fn: Fn, ts: seq<Term>, vs: seq<Value>, w: World, row: map<string, Value>, params: Params)
    requires TwoOperand(fn) && |ts| == |vs| > 0
    requires forall i :: 0 <= i < |ts| ==> EvalTerm(ts[i], w, row, params) == Some(vs[i])
    ensures EvalTerm(Chain(fn, ts), w, row, params) == ChainValue(w, fn, vs)
  {
    if |ts| > 1 {
      var front, last := ts[..|ts| - 1], ts[|ts| - 1];
      ChainEvaluates(fn, front, vs[..|vs| - 1], w, row, params);
      var pair := [Chain(fn, front), last];
      EvalTermsAt(pair, w, row, params);
      var before := ChainValue(w, fn, vs[..|vs| - 1]);
      if before.Some? {
        EvalTermsIs(pair, [before.value, vs[|vs| - 1]], w, row, params);
      } else {
        assert EvalTerm(pair[0], w, row, params).None?;
      }
    }
  }

  /** Adding one more number to a running total keeps the total's tag right. */
  lemma PlusStep(w: World, total: real, whole: bool, last: Value)
    requires last.IsNumber() && (whole ==> total == total.Floor as real)
    ensures Binary(w, Plus, Tagged(total, whole), last) == Some(Tagged(total + last.Quantity(), whole && last.Int?))
    ensures whole && last.Int? ==> total + last.Quantity() == (total + last.Quantity()).Floor as real
  {
    if whole && last.Int? {
      assert total + last.Quantity() == (total.Floor + last.whole) as real;
      assert ((total.Floor + last.whole) as real).Floor == total.Floor + last.whole;
    } else {
      assert Tagged(total, whole).Quantity() == total;
    }
  }

  lemma TimesStep(w: World, total: real, whole: bool, last: Value)
    requires last.IsNumber() && (whole ==> total == total.Floor as real)
    ensures Binary(w, Times, Tagged(total, whole), last) == Some(Tagged(Scale(total, last.Quantity()), whole && last.Int?))
    ensures whole && last.Int? ==> Scale(total, last.Quantity()) == Scale(total, last.Quantity()).Floor as real
  {
    assert Tagged(total, whole).Quantity() == total;
    if whole && last.Int? {
      WholeProduct(total.Floor, last.whole);
      assert Scale(total, last.Quantity()) == (total.Floor * last.whole) as real;
    }
  }

  lemma WholeProduct(a: int, b: int)
    ensures (a as real) * (b as real) == (a * b) as real
  {
  }

  lemma {:induction false} ChainSum(w: World, vs: seq<Value>)
    requires |vs| > 0 && AllNumbers(vs)
    ensures AllWhole(vs) ==> Sum(vs) == Sum(vs).Floor as real
    ensures ChainValue(w, Plus, vs) == Some(Tagged(Sum(vs), AllWhole(vs)))
  {
    var front, last := vs[..|vs| - 1], vs[|vs| - 1];
    assert vs == front + [last];
    assert AllWhole(vs) <==> AllWhole(front) && last.Int?;
    if |vs| == 1 {
      assert Sum(front) == 0.0;
      assert Sum(vs) == last.Quantity();
    } else {
      ChainSum(w, front);
      PlusStep(w, Sum(front), AllWhole(front), last);
    }
  }

  lemma ProductStep(vs: seq<Value>)
    requires |vs| > 0 && AllNumbers(vs)
    ensures AllNumbers(vs[..|vs| - 1]) && Product(vs) == Scale(Product(vs[..|vs| - 1]), vs[|vs| - 1].Quantity())
  {
  }

  lemma {:induction false} ChainProduct(w: World, vs: seq<Value>)
    requires |vs| > 0 && AllNumbers(vs)
    ensures AllWhole(vs) ==> Product(vs) == Product(vs).Floor as real
    ensures ChainValue(w, Times, vs) == Some(Tagged(Product(vs), AllWhole(vs)))
  {
    var front, last := vs[..|vs| - 1], vs[|vs| - 1];
    assert vs == front + [last];
    assert AllWhole(vs) <==> AllWhole(front) && last.Int?;
    if |vs| == 1 {
      assert Product(front) == 1.0;
      assert Product(vs) == last.Quantity();
    } else {
      ChainProduct(w, front);
      ProductStep(vs);
      TimesStep(w, Product(front), AllWhole(front), last);
    }
  }

  lemma {:induction false} ChainUnion(w: World, vs: seq<Value>)
    requires |vs| > 1 && AllArrays(vs)
    ensures ChainValue(w, Union, vs) == Some(Arr(Distinct(Flatten(vs))))
  {
    var front, last := vs[..|vs| - 1], vs[|vs| - 1];
    assert vs == front + [last];
    if |vs| == 2 {
      assert Flatten(front[..0]) == [];
      assert Flatten(front) == [] + front[0].items == vs[0].items;
    } else {
      ChainUnion(w, front);
      DistinctAppend(Flatten(front), last.items);
    }
  }

  /** Intersecting with one more array, the duplicates already dropped or not. */
  lemma CommonStep(vs: seq<Value>)
    requires |vs| > 1 && AllArrays(vs)
    ensures AllArrays(vs[..|vs| - 1]) && vs[|vs| - 1].Arr?
    ensures Within(Common(vs[..|vs| - 1]), vs[|vs| - 1].items) == Common(vs)
    ensures Distinct(Within(Distinct(Common(vs[..|vs| - 1])), vs[|vs| - 1].items)) == Distinct(Common(vs))
  {
    var front, last := vs[..|vs| - 1], vs[|vs| - 1];
    assert last in vs;
    var items := vs[0].items;
    var inLast := (x: Value) => x in last.items;
    var inFront := (x: Value) => InRest(front, x);
    var inAll := (x: Value) => InRest(vs, x);
    forall x
      ensures inAll(x) <==> inFront(x) && inLast(x)
    {
      InRestStep(vs, x);
    }
    SelectTwice(items, inFront, inLast, inAll);
    SelectAgrees(items, inAll, x => InRest(vs, x));
    SelectAgrees(items, inFront, x => InRest(front, x));
    assert Common(front) == Select(items, inFront);
    WithinAgrees(Common(front), last.items, inLast);
    WithinAgrees(Distinct(Common(front)), last.items, inLast);
    DistinctSelect(Common(front), inLast);
  }

  lemma WithinAgrees(a: seq<Value>, b: seq<Value>, p: Value -> bool)
    requires forall x :: p(x) <==> x in b
    ensures Within(a, b) == Select(a, p)
  {
    SelectAgrees(a, p, x => x in b);
  }

  lemma {:induction false} ChainIntersection(w: World, vs: seq<Value>)
    requires |vs| > 1 && AllArrays(vs)
    ensures ChainValue(w, Intersect, vs) == Some(Arr(Distinct(Common(vs))))
  {
    var front, last := vs[..|vs| - 1], vs[|vs| - 1];
    CommonStep(vs);
    if |vs| == 2 {
      OnlyArray(front);
    } else {
      ChainIntersection(w, front);
    }
  }

  lemma InRestStep(vs: seq<Value>, x: Value)
    requires |vs| > 1 && AllArrays(vs)
    ensures AllArrays(vs[..|vs| - 1])
    ensures InRest(vs, x) <==> InRest(vs[..|vs| - 1], x) && x in vs[|vs| - 1].items
  {
    var front := vs[..|vs| - 1];
    assert forall i :: 0 <= i < |front| ==> front[i] == vs[i];
    if InRest(front, x) && x in vs[|vs| - 1].items {
      forall i | 1 <= i < |vs|
        ensures x in vs[i].items
      {
        if i < |front| {
          assert x in front[i].items;
        }
      }
    }
  }

  lemma {:induction false} ChainMerge(w: World, vs: seq<Value>)
    requires |vs| > 0 && AllObjects(vs)
    ensures ChainValue(w, Extend, vs) == Some(Obj(Merged(vs)))
  {
    var front, last := vs[..|vs| - 1], vs[|vs| - 1];
    assert vs == front + [last];
    if |vs| == 1 {
      assert Merged(front) == map[];
      assert map[] + last.fields == last.fields;
    } else {
      ChainMerge(w, front);
    }
  }

  lemma {:induction false} ChainAnd(w: World, vs: seq<Value>)
    requires |vs| > 0 && forall i :: 0 <= i < |vs| ==> vs[i].Bool?
    ensures ChainValue(w, And, vs) == Some(Bool(forall i :: 0 <= i < |vs| ==> vs[i].flag))
  {
    if |vs| > 1 {
      var front, last := vs[..|vs| - 1], vs[|vs| - 1];
      ChainAnd(w, front);
      assert (forall i :: 0 <= i < |vs| ==> vs[i].flag) <==> (forall i :: 0 <= i < |front| ==> front[i].flag) && last.flag by {
        if (forall i :: 0 <= i < |front| ==> front[i].flag) && last.flag {
          forall i | 0 <= i < |vs|
            ensures vs[i].flag
          {
            if i < |front| {
              assert front[i].flag;
            }
          }
        }
      }
    } else {
      assert vs[0] == Bool(vs[0].flag);
    }
  }

  predicate SameAdjacent(vs: seq<Value>)
  {
    forall i :: 0 <= i < |vs| - 1 ==> vs[i] == vs[i + 1]
  }

  lemma {:induction false} SameAdjacentMeansSame(vs: seq<Value>, n: nat)
    requires SameAdjacent(vs) && n < |vs|
    ensures vs[n] == vs[0]
  {
    if n > 0 {
      SameAdjacentMeansSame(vs, n - 1);
      assert vs[n - 1] == vs[n - 1 + 1];
    }
  }

  function CanonicalValues(vs: seq<Value>, leq: (Value, Value) -> bool): seq<Value>
    requires AllArrays(vs)
  {
    seq(|vs|, i requires 0 <= i < |vs| => Arr(Sort(Distinct(vs[i].items), leq)))
  }

  /** Adjacent canonical forms coincide throughout exactly when all the sets do. */
  lemma AdjacentEqualMeansAllEqual(vs: seq<Value>, leq: (Value, Value) -> bool)
    requires TotalOrder(leq) && |vs| > 0 && AllArrays(vs)
    ensures SameAdjacent(CanonicalValues(vs, leq)) <==> SameSets(vs)
  {
    var sorted := CanonicalValues(vs, leq);
    if SameAdjacent(sorted) {
      forall i | 0 <= i < |vs|
        ensures Elements(vs[i].items) == Elements(vs[0].items)
      {
        SameAdjacentMeansSame(sorted, i);
        CanonicalForm(vs[i].items, vs[0].items, leq);
      }
    }
    if SameSets(vs) {
      forall i | 0 <= i < |vs| - 1
        ensures sorted[i] == sorted[i + 1]
      {
        assert Elements(vs[i].items) == Elements(vs[0].items) == Elements(vs[i + 1].items);
        CanonicalForm(vs[i].items, vs[i + 1].items, leq);
      }
    }
  }

  lemma CanonicalSetsEvaluate(ts: seq<Term>, vs: seq<Value>, w: World, row: map<string, Value>, params: Params)
    requires |ts| == |vs| && AllArrays(vs)
    requires forall i :: 0 <= i < |ts| ==> EvalTerm(ts[i], w, row, params) == Some(vs[i])
    ensures forall i :: 0 <= i < |ts| ==>
              EvalTerm(CanonicalSets(ts)[i], w, row, params) == Some(CanonicalValues(vs, w.leq)[i])
  {
    forall i | 0 <= i < |ts|
      ensures EvalTerm(CanonicalSets(ts)[i], w, row, params) == Some(CanonicalValues(vs, w.leq)[i])
    {
      assert vs[i] in vs;
      EvalTermsIs([ts[i]], [vs[i]], w, row, params);
      EvalTermsIs([Apply(DistinctOf, [ts[i]])], [Arr(Distinct(vs[i].items))], w, row, params);
    }
  }

  lemma PairEvaluates(fn: Fn, a: Term, b: Term, va: Value, vb: Value, w: World, row: map<string, Value>, params: Params)
    requires EvalTerm(a, w, row, params) == Some(va) && EvalTerm(b, w, row, params) == Some(vb)
    ensures EvalTerm(Apply(fn, [a, b]), w, row, params) == Answer(w, fn, [va, vb])
  {
    EvalTermsIs([a, b], [va, vb], w, row, params);
  }

  function SameAsNext(vs: seq<Value>): seq<Value>
    requires |vs| > 0
  {
    seq(|vs| - 1, i requires 0 <= i < |vs| - 1 => Bool(vs[i] == vs[i + 1]))
  }

  lemma PairAt(ts: seq<Term>, vs: seq<Value>, i: nat, w: World, row: map<string, Value>, params: Params)
    requires |ts| == |vs| && i < |vs| - 1
    requires EvalTerm(ts[i], w, row, params) == Some(vs[i]) && EvalTerm(ts[i + 1], w, row, params) == Some(vs[i + 1])
    ensures EvalTerm(AdjacentPairs(ts)[i], w, row, params) == Some(SameAsNext(vs)[i])
  {
    PairEvaluates(Equal, ts[i], ts[i + 1], vs[i], vs[i + 1], w, row, params);
  }

  lemma AdjacentPairsEvaluate(ts: seq<Term>, vs: seq<Value>, w: World, row: map<string, Value>, params: Params)
    requires |ts| == |vs| > 1
    requires forall i :: 0 <= i < |ts| ==> EvalTerm(ts[i], w, row, params) == Some(vs[i])
    ensures EvalTerm(Chain(And, AdjacentPairs(ts)), w, row, params) == Some(Bool(SameAdjacent(vs)))
  {
    forall i: nat | i < |ts| - 1
      ensures EvalTerm(AdjacentPairs(ts)[i], w, row, params) == Some(SameAsNext(vs)[i])
    {
      PairAt(ts, vs, i, w, row, params);
    }
    ChainEvaluates(And, AdjacentPairs(ts), SameAsNext(vs), w, row, params);
    FlagsMeanSame(vs, w);
  }

  lemma FlagsMeanSame(vs: seq<Value>, w: World)
    requires |vs| > 1
    ensures ChainValue(w, And, SameAsNext(vs)) == Some(Bool(SameAdjacent(vs)))
  {
    var flags := SameAsNext(vs);
    ChainAnd(w, flags);
    assert forall i :: 0 <= i < |flags| ==> (flags[i].flag <==> vs[i] == vs[i + 1]);
  }

  lemma SetEqualsEvaluates(ts: seq<Term>, vs: seq<Value>, w: World, row: map<string, Value>, params: Params)
    requires |ts| == |vs| > 1 && AllArrays(vs)
    requires forall i :: 0 <= i < |ts| ==> EvalTerm(ts[i], w, row, params) == Some(vs[i])
    ensures EvalTerm(Chain(And, AdjacentPairs(CanonicalSets(ts))), w, row, params)
         == Some(Bool(SameAdjacent(CanonicalValues(vs, w.leq))))
  {
    CanonicalSetsEvaluate(ts, vs, w, row, params);
    AdjacentPairsEvaluate(CanonicalSets(ts), CanonicalValues(vs, w.leq), w, row, params);
  }

  lemma DivideEvaluates(ts: seq<Term>, vs: seq<Value>, w: World, row: map<string, Value>, params: Params)
    requires |ts| == |vs| == 2 && Meaning(w, ExpressionSource.Divide, vs).Some?
    requires forall i :: 0 <= i < |ts| ==> EvalTerm(ts[i], w, row, params) == Some(vs[i])
    ensures EvalTerm(Apply(Over, [Apply(CastFloat, [ts[0]]), ts[1]]), w, row, params) == Meaning(w, ExpressionSource.Divide, vs)
  {
    EvalTermsIs([ts[0]], [vs[0]], w, row, params);
    assert vs[0] in vs && vs[1] in vs;
    EvalTermsIs([Apply(CastFloat, [ts[0]]), ts[1]], [Float(vs[0].Quantity()), vs[1]], w, row, params);
  }

  lemma SetDifferenceEvaluates(ts: seq<Term>, vs: seq<Value>, w: World, row: map<string, Value>, params: Params)
    requires |ts| == |vs| == 2 && AllArrays(vs)
    requires EvalTerms(ts, w, row, params) == Some(vs)
    ensures EvalTerm(Apply(DistinctOf, [Apply(Complement, ts)]), w, row, params) == Meaning(w, SetDifference, vs)
  {
    ComplementEvaluates(ts, vs, w, row, params);
    DistinctEvaluates(Apply(Complement, ts), Select(vs[0].items, x => x !in vs[1].items), w, row, params);
  }

  lemma ComplementEvaluates(ts: seq<Term>, vs: seq<Value>, w: World, row: map<string, Value>, params: Params)
    requires |ts| == |vs| == 2 && AllArrays(vs)
    requires EvalTerms(ts, w, row, params) == Some(vs)
    ensures vs[0].Arr? && vs[1].Arr?
    ensures EvalTerm(Apply(Complement, ts), w, row, params) == Some(Arr(Select(vs[0].items, x => x !in vs[1].items)))
  {
    assert vs[0] in vs && vs[1] in vs;
  }

  lemma DistinctEvaluates(t: Term, items: seq<Value>, w: World, row: map<string, Value>, params: Params)
    requires EvalTerm(t, w, row, params) == Some(Arr(items))
    ensures EvalTerm(Apply(DistinctOf, [t]), w, row, params) == Some(Arr(Distinct(items)))
  {
    EvalTermsIs([t], [Arr(items)], w, row, params);
  }

  lemma SetIsSubsetEvaluates(ts: seq<Term>, vs: seq<Value>, w: World, row: map<string, Value>, params: Params)
    requires |ts| == |vs| == 2 && AllArrays(vs)
    requires forall i :: 0 <= i < |ts| ==> EvalTerm(ts[i], w, row, params) == Some(vs[i])
    ensures EvalTerm(Apply(ContainsAll, [ts[1], ts[0]]), w, row, params) == Meaning(w, SetIsSubset, vs)
  {
    assert vs[0] in vs && vs[1] in vs;
    EvalTermsIs([ts[1], ts[0]], [vs[1], vs[0]], w, row, params);
    assert (forall x :: x in vs[0].items ==> x in vs[1].items) <==> Elements(vs[0].items) <= Elements(vs[1].items) by {
      if Elements(vs[0].items) <= Elements(vs[1].items) {
        forall x | x in vs[0].items
          ensures x in vs[1].items
        {
          assert x in Elements(vs[0].items);
          assert x in Elements(vs[1].items);
        }
      }
    }
  }

  lemma SetUnionEvaluates(ts: seq<Term>, vs: seq<Value>, reg: Registry, w: World, row: map<string, Value>, params: Params)
    requires |ts| == |vs| > 0 && AllArrays(vs)
    requires EvalTerms(ts, w, row, params) == Some(vs)
    ensures EvalTerm(Build(reg, SetUnion, ts), w, row, params) == Meaning(w, SetUnion, vs)
  {
    EvalTermsAt(ts, w, row, params);
    if |vs| == 1 {
      assert vs[0] in vs;
      assert Flatten(vs[..0]) == [];
      assert Flatten(vs) == [] + vs[0].items == vs[0].items;
    } else {
      ChainEvaluates(Union, ts, vs, w, row, params);
      ChainUnion(w, vs);
    }
  }

  lemma SetIntersectionEvaluates(ts: seq<Term>, vs: seq<Value>, reg: Registry, w: World, row: map<string, Value>, params: Params)
    requires |ts| == |vs| > 0 && AllArrays(vs)
    requires EvalTerms(ts, w, row, params) == Some(vs)
    ensures EvalTerm(Build(reg, SetIntersection, ts), w, row, params) == Meaning(w, SetIntersection, vs)
  {
    EvalTermsAt(ts, w, row, params);
    if |vs| == 1 {
      OnlyArray(vs);
    } else {
      ChainEvaluates(Intersect, ts, vs, w, row, params);
      ChainIntersection(w, vs);
    }
  }

  lemma OnlyArray(vs: seq<Value>)
    requires |vs| == 1 && AllArrays(vs)
    ensures vs[0].Arr? && Common(vs) == vs[0].items
  {
    assert vs[0] in vs;
    KeepEverything(vs[0].items, x => InRest(vs, x));
  }

  lemma {:induction false} KeepEverything(s: seq<Value>, keep: Value -> bool)
    requires forall x :: keep(x)
    ensures Select(s, keep) == s
  {
    if s != [] {
      KeepEverything(s[..|s| - 1], keep);
      assert s == s[..|s| - 1] + [s[|s| - 1]];
    }
  }

  /** The main fact: what is built computes what is meant, exactly unless an array literal holds a missing value. */
  lemma StrictCorrect(op: Operator, ts: seq<Term>, vs: seq<Value>, reg: Registry, w: World, row: map<string, Value>, params: Params)
    requires TotalOrder(w.leq) && Agrees(w, reg)
    requires Accepts(reg, op, |ts|)
    requires EvalTerms(ts, w, row, params) == Some(vs)
    requires Meaning(w, op, vs).Some?
    ensures EvalTerm(Build(reg, op, ts), w, row, params) == Meaning(w, op, vs) <==> !(op.MakeArray? && Absent in vs)
  {
    EvalTermsAt(ts, w, row, params);
    match op
    case Call(_) =>
    case Add =>
      ChainEvaluates(Plus, ts, vs, w, row, params);
      ChainSum(w, vs);
    case Multiply =>
      ChainEvaluates(Times, ts, vs, w, row, params);
      ChainProduct(w, vs);
    case Divide => DivideEvaluates(ts, vs, w, row, params);
    case SetUnion => SetUnionEvaluates(ts, vs, reg, w, row, params);
    case SetIntersection => SetIntersectionEvaluates(ts, vs, reg, w, row, params);
    case SetDifference => SetDifferenceEvaluates(ts, vs, w, row, params);
    case SetEquals =>
      SetEqualsEvaluates(ts, vs, w, row, params);
      AdjacentEqualMeansAllEqual(vs, w.leq);
    case SetIsSubset => SetIsSubsetEvaluates(ts, vs, w, row, params);
    case MergeObjects =>
      ChainEvaluates(Extend, ts, vs, w, row, params);
      ChainMerge(w, vs);
    case MakeArray => FilledIsSame(vs);
  }
}
