/**
 * The identity in reshaped rows: an expression sees a record id where the document has
 * its `_id`, and the decoding of the rows gives the `_id` back wherever that record id
 * stands under the name `_id`.
 */
module IdentityDecoding {
  import opened Values
  import opened ExpressionSource
  import opened MissingValues
  import opened SurrealTerms
  import opened ExpressionCompiler
  import opened ExpressionOperators
  import opened VariableCapture
  import opened ExpressionCorrectness
  import opened ExpressionLimits

  /** A record id's own id; any other value as it is. */
  function ToMongoId(v: Value): Value {
    if v.RecordOf? then v.id else v
  }

  /** Every `_id` in a value, however deep, mapped back; nothing below an `_id` is looked at. */
  function MapIdentities(v: Value): Value
    decreases v
  {
    match v
    case Arr(items) => Arr(seq(|items|, i requires 0 <= i < |items| => MapIdentities(items[i])))
    case Obj(fields) => Obj(map k | k in fields :: if k == "_id" then ToMongoId(fields[k]) else MapIdentities(fields[k]))
    case _ => v
  }

  /** A record id stands under the name `_id` somewhere in `v`. */
  predicate NamesRecord(v: Value)
    decreases v
  {
    (v.Arr? && exists x :: x in v.items && NamesRecord(x))
    || (v.Obj? && exists k :: k in v.fields && if k == "_id" then v.fields[k].RecordOf? else NamesRecord(v.fields[k]))
  }

  /** Decoding changes a value exactly when a record id stands under the name `_id` in it. */
  lemma {:induction false} MapIdentitiesLeaves(v: Value)
    ensures MapIdentities(v) == v <==> !NamesRecord(v)
    decreases v
  {
    match v
    case Arr(items) =>
      var mapped := MapIdentities(v).items;
      forall i | 0 <= i < |items|
        ensures mapped[i] == items[i] <==> !NamesRecord(items[i])
      {
        MapIdentitiesLeaves(items[i]);
      }
    case Obj(fields) =>
      var mapped := MapIdentities(v).fields;
      forall k | k in fields
        ensures mapped[k] == fields[k] <==> !(if k == "_id" then fields[k].RecordOf? else NamesRecord(fields[k]))
      {
        if k == "_id" {
          RecordIsNotItsId(fields[k]);
        } else {
          MapIdentitiesLeaves(fields[k]);
        }
      }
    case _ =>
  }

  lemma RecordIsNotItsId(v: Value)
    ensures ToMongoId(v) == v <==> !v.RecordOf?
  {
    if v.RecordOf? {
      assert v.id < v;
    }
  }

  // Reshaping stages that keep the identity under its name.

  /** The field carries the identity under its own name. */
  predicate CarriesIdentity(b: Binding) {
    b.name == "_id" && b.value == Field(["_id"])
  }

  /** Any other field: an expression whose value has no record id under the name `_id`. */
  ghost predicate Ordinary(b: Binding, s: Setting) {
    && b.name != "_id" && Uncaptured(b.value, s.plain, map[]) && WellFormed(b.value, s.reg, {})
    && Complete(b.value, s.w, s.doc, map[])
    && !NamesRecord(Eval(b.value, s.w, Rejected, s.doc, map[]).value)
  }

  ghost predicate Carrying(fields: seq<Binding>, s: Setting) {
    forall b :: b in fields ==> CarriesIdentity(b) || Ordinary(b, s)
  }

  /** A field's value as the server computes it: the identity as a record id. */
  function Computed(b: Binding, v: Value): Value {
    if CarriesIdentity(b) then RecordOf(v) else v
  }

  function AllComputed(fields: seq<Binding>, values: seq<Value>): seq<Value>
    requires |fields| == |values|
  {
    seq(|fields|, i requires 0 <= i < |fields| => Computed(fields[i], values[i]))
  }

  lemma FieldComputes(b: Binding, s: Setting)
    requires Valid(s) && !s.plain && (CarriesIdentity(b) || Ordinary(b, s))
    ensures Compiled(s, b.value, map[]).Success? && Eval(b.value, s.w, Rejected, s.doc, map[]).Some?
    ensures Eval(b.value, s.w, Converted, s.doc, map[]) == Eval(b.value, s.w, Rejected, s.doc, map[])
    ensures EvalTerm(Compiled(s, b.value, map[]).value, s.w, s.row, map[])
         == Some(Computed(b, Eval(b.value, s.w, Rejected, s.doc, map[]).value))
  {
    if CarriesIdentity(b) {
      IdentityReadsRecord(s);
    } else {
      CompilerCorrectness(b.value, s);
      CompleteIsConverted(b.value, s.w, s.doc, map[]);
    }
  }

  lemma {:induction false} FieldsCompute(fields: seq<Binding>, s: Setting) returns (terms: seq<Term>, values: seq<Value>)
    requires Valid(s) && !s.plain && Carrying(fields, s)
    ensures CompileBindings(fields, s.reg, s.plain, map[]) == Success(terms)
    ensures EvalBindings(fields, s.w, Rejected, s.doc, map[]) == Some(values)
    ensures EvalTerms(terms, s.w, s.row, map[]) == Some(AllComputed(fields, values))
  {
    if fields == [] {
      NoFields(s);
      return [], [];
    }
    assert fields[0] in fields && forall b :: b in fields[1..] ==> b in fields;
    FieldComputes(fields[0], s);
    var t, v := Compiled(s, fields[0].value, map[]).value, Eval(fields[0].value, s.w, Rejected, s.doc, map[]).value;
    var restTerms, restValues := FieldsCompute(fields[1..], s);
    terms, values := [t] + restTerms, [v] + restValues;
    FieldsCons(fields, s, t, v, restTerms, restValues);
    FirstComputed(fields, v, restValues);
    TermsCons(t, Computed(fields[0], v), restTerms, AllComputed(fields[1..], restValues), s);
  }

  lemma NoFields(s: Setting)
    ensures CompileBindings([], s.reg, s.plain, map[]) == Success([]) && EvalBindings([], s.w, Rejected, s.doc, map[]) == Some([])
    ensures EvalTerms([], s.w, s.row, map[]) == Some([]) && AllComputed([], []) == []
  {
  }

  lemma FieldsCons(fields: seq<Binding>, s: Setting, t: Term, v: Value, terms: seq<Term>, values: seq<Value>)
    requires fields != [] && Compiled(s, fields[0].value, map[]) == Success(t) && Eval(fields[0].value, s.w, Rejected, s.doc, map[]) == Some(v)
    requires CompileBindings(fields[1..], s.reg, s.plain, map[]) == Success(terms)
    requires EvalBindings(fields[1..], s.w, Rejected, s.doc, map[]) == Some(values)
    ensures CompileBindings(fields, s.reg, s.plain, map[]) == Success([t] + terms)
    ensures EvalBindings(fields, s.w, Rejected, s.doc, map[]) == Some([v] + values)
  {
  }

  lemma FirstComputed(fields: seq<Binding>, v: Value, rest: seq<Value>)
    requires fields != [] && |rest| == |fields| - 1
    ensures AllComputed(fields, [v] + rest) == [Computed(fields[0], v)] + AllComputed(fields[1..], rest)
  {
  }

  lemma TermsCons(t: Term, v: Value, terms: seq<Term>, values: seq<Value>, s: Setting)
    requires EvalTerm(t, s.w, s.row, map[]) == Some(v) && EvalTerms(terms, s.w, s.row, map[]) == Some(values)
    ensures EvalTerms([t] + terms, s.w, s.row, map[]) == Some([v] + values)
  {
    assert ([t] + terms)[1..] == terms;
  }

  /** Decoding the computed object gives the object meant. */
  lemma {:induction false} ObjectDecodes(fields: seq<Binding>, values: seq<Value>)
    requires |fields| == |values|
    requires forall i :: 0 <= i < |fields| ==> CarriesIdentity(fields[i]) || (fields[i].name != "_id" && !NamesRecord(values[i]))
    ensures MapIdentities(Obj(MakeObject(Names(fields), AllComputed(fields, values)))) == Obj(MakeObject(Names(fields), values))
  {
    if fields != [] {
      var front, last := fields[..|fields| - 1], fields[|fields| - 1];
      var frontValues, v := values[..|fields| - 1], values[|fields| - 1];
      ObjectDecodes(front, frontValues);
      assert Names(fields)[..|fields| - 1] == Names(front);
      assert AllComputed(fields, values)[..|fields| - 1] == AllComputed(front, frontValues);
      LastDecodes(MakeObject(Names(front), AllComputed(front, frontValues)), MakeObject(Names(front), frontValues), last, v);
    }
  }

  lemma LastDecodes(computed: map<string, Value>, meant: map<string, Value>, b: Binding, v: Value)
    requires MapIdentities(Obj(computed)) == Obj(meant)
    requires CarriesIdentity(b) || (b.name != "_id" && !NamesRecord(v))
    ensures MapIdentities(Obj(computed[b.name := Computed(b, v)])) == Obj(meant[b.name := v])
  {
    if !CarriesIdentity(b) {
      MapIdentitiesLeaves(v);
    }
    var more := MapIdentities(Obj(computed[b.name := Computed(b, v)])).fields;
    var before := MapIdentities(Obj(computed)).fields;
    assert more.Keys == before.Keys + {b.name};
    forall k | k in more
      ensures more[k] == meant[b.name := v][k]
    {
      if k != b.name {
        assert more[k] == before[k];
      }
    }
  }

  /**
   * A document built over stored rows, the identity passed through under the name `_id`
   * and every other field an expression the compiler keeps, reads back - computed,
   * then decoded - as what MongoDB builds.
   */
  lemma CarriedIdentityDecodes(fields: seq<Binding>, s: Setting)
    requires Valid(s) && !s.plain && Carrying(fields, s) && Complete(Document(fields), s.w, s.doc, map[])
    ensures Compiled(s, Document(fields), map[]).Success? && EvalTerm(Compiled(s, Document(fields), map[]).value, s.w, s.row, map[]).Some?
    ensures Some(MapIdentities(EvalTerm(Compiled(s, Document(fields), map[]).value, s.w, s.row, map[]).value))
         == Eval(Document(fields), s.w, Converted, s.doc, map[])
  {
    var terms, values := FieldsCompute(fields, s);
    CarryingValues(fields, s);
    CarriedComputes(fields, s, terms, values);
    ObjectDecodes(fields, values);
    CarriedMeans(fields, s, values);
  }

  lemma CarriedMeans(fields: seq<Binding>, s: Setting, values: seq<Value>)
    requires EvalBindings(fields, s.w, Rejected, s.doc, map[]) == Some(values) && Complete(Document(fields), s.w, s.doc, map[])
    ensures Eval(Document(fields), s.w, Converted, s.doc, map[]) == Some(Obj(MakeObject(Names(fields), values)))
  {
    AllPresent(Names(fields), values);
    ObjectMeans(fields, s, values);
  }

  lemma CarriedComputes(fields: seq<Binding>, s: Setting, terms: seq<Term>, values: seq<Value>)
    requires CompileBindings(fields, s.reg, s.plain, map[]) == Success(terms) && |values| == |fields|
    requires EvalTerms(terms, s.w, s.row, map[]) == Some(AllComputed(fields, values))
    ensures Compiled(s, Document(fields), map[]) == Success(Apply(ObjectLiteral(Names(fields)), terms))
    ensures EvalTerm(Apply(ObjectLiteral(Names(fields)), terms), s.w, s.row, map[])
         == Some(Obj(MakeObject(Names(fields), AllComputed(fields, values))))
  {
    DocumentEvaluates(Names(fields), terms, AllComputed(fields, values), s, map[]);
  }

  lemma {:induction false} CarryingValues(fields: seq<Binding>, s: Setting)
    requires Valid(s) && !s.plain && Carrying(fields, s) && EvalBindings(fields, s.w, Rejected, s.doc, map[]).Some?
    ensures var values := EvalBindings(fields, s.w, Rejected, s.doc, map[]).value;
            forall i :: 0 <= i < |fields| ==> CarriesIdentity(fields[i]) || (fields[i].name != "_id" && !NamesRecord(values[i]))
  {
    if fields != [] {
      assert fields[0] in fields && forall b :: b in fields[1..] ==> b in fields;
      CarryingValues(fields[1..], s);
    }
  }

  /** The identity alone under some name reads back as MongoDB's document exactly when the name is `_id`. */
  lemma OnlyUnderItsName(name: string, s: Setting)
    requires Valid(s) && !s.plain
    ensures var e := Document([Binding(name, Field(["_id"]))]);
            && Compiled(s, e, map[]).Success?
            && EvalTerm(Compiled(s, e, map[]).value, s.w, s.row, map[]) == Some(Obj(map[name := RecordOf(s.doc["_id"])]))
            && (Some(MapIdentities(Obj(map[name := RecordOf(s.doc["_id"])]))) == Eval(e, s.w, Converted, s.doc, map[]) <==> name == "_id")
  {
    var b, id := Binding(name, Field(["_id"])), s.doc["_id"];
    IdentityMeans(s);
    OneFieldMeans(b, id, s);
    OneFieldComputes(b, s);
    OneDecodes(name, id);
  }

  lemma IdentityMeans(s: Setting)
    requires Valid(s) && !s.plain
    ensures Eval(Field(["_id"]), s.w, Rejected, s.doc, map[]) == Some(s.doc["_id"]) && s.doc["_id"] != Absent
  {
  }

  lemma OneDecodes(name: string, id: Value)
    ensures MapIdentities(Obj(map[name := RecordOf(id)])) == Obj(map[name := id]) <==> name == "_id"
  {
    var computed: map<string, Value> := map[name := RecordOf(id)];
    var meant: map<string, Value> := map[name := id];
    RecordIsNotItsId(RecordOf(id));
    assert computed[name] == RecordOf(id) && MapIdentities(computed[name]) == computed[name];
    var decoded := MapIdentities(Obj(computed)).fields;
    assert decoded.Keys == computed.Keys && meant.Keys == {name};
    assert decoded[name] == (if name == "_id" then id else RecordOf(id)) && meant[name] == id;
  }

  lemma OneFieldMeans(b: Binding, v: Value, s: Setting)
    requires Eval(b.value, s.w, Rejected, s.doc, map[]) == Some(v) && v != Absent
    ensures Eval(Document([b]), s.w, Converted, s.doc, map[]) == Some(Obj(map[b.name := v]))
  {
    OneFieldEvaluates(b, v, s, Rejected, map[]);
    ObjectMeans([b], s, [v]);
    assert Names([b]) == [b.name];
    AllPresent([b.name], [v]);
    OneObject(b.name, v);
  }

  lemma OneObject(name: string, v: Value)
    ensures MakeObject([name], [v]) == map[name := v]
  {
    assert [name][..0] == [] && [v][..0] == [];
    assert MakeObject([], []) == map[];
  }

  lemma OneFieldComputes(b: Binding, s: Setting)
    requires Valid(s) && !s.plain && b.value == Field(["_id"])
    ensures Compiled(s, Document([b]), map[]).Success?
    ensures EvalTerm(Compiled(s, Document([b]), map[]).value, s.w, s.row, map[]) == Some(Obj(map[b.name := RecordOf(s.doc["_id"])]))
  {
    IdentityReadsRecord(s);
    assert [b][1..] == [];
    assert CompileBindings([], s.reg, s.plain, map[]) == Success([]);
    assert [Idiom(["id"])] + [] == [Idiom(["id"])];
    assert CompileBindings([b], s.reg, s.plain, map[]) == Success([Idiom(["id"])]);
    EvalTermsIs([Idiom(["id"])], [RecordOf(s.doc["_id"])], s.w, s.row, map[]);
    assert Names([b]) == [b.name];
    DocumentEvaluates([b.name], [Idiom(["id"])], [RecordOf(s.doc["_id"])], s, map[]);
    OneObject(b.name, RecordOf(s.doc["_id"]));
  }
}
