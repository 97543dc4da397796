/**
 * Exclusion on the objects themselves: a copy is made of every object on the way
 * before anything is deleted from it, so the caller's document is never written to.
 */
module ProjectedObjects {
  import opened Identifiers
  import opened Projections

  /** A field's value: arrays are only ever replaced, objects are written to. */
  datatype Ref = LeafRef(id: int) | ArrayRef(elements: seq<Ref>) | ObjectRef(target: JsObject)

  class JsObject {
    var fields: map<Text, Ref>
    ghost var Repr: set<object>

    /** What hangs below an object does not lead back to it. */
    ghost predicate Valid()
      reads this, Repr
      decreases Repr, 0
    {
      this in Repr && forall name :: name in fields ==> RefValid(fields[name], Repr - {this})
    }

    /** The document the object stands for. */
    ghost function Value(): Fields
      requires Valid()
      reads this, Repr
      decreases Repr, 0
    {
      map name | name in fields :: RefValue(fields[name], Repr - {this})
    }

    /** A shallow copy, as spreading an object makes. */
    constructor Spread(source: JsObject)
      requires source.Valid()
      ensures Valid() && Value() == source.Value()
      ensures fresh(this) && Repr == source.Repr - {source} + {this}
      ensures fields == source.fields
    {
      fields := source.fields;
      Repr := source.Repr - {source} + {this};
      new;
      assert Repr - {this} == source.Repr - {source};
    }
  }

  ghost predicate RefValid(r: Ref, within: set<object>)
    reads within
    decreases within, 1, r
  {
    match r
    case LeafRef(_) => true
    case ArrayRef(elements) => forall e :: e in elements ==> RefValid(e, within)
    case ObjectRef(o) => o in within && o.Repr <= within && o.Valid()
  }

  ghost function RefValue(r: Ref, within: set<object>): Node
    requires RefValid(r, within)
    reads within
    decreases within, 1, r
  {
    match r
    case LeafRef(id) => Leaf(id)
    case ArrayRef(elements) => Items(RefValues(elements, within))
    case ObjectRef(o) => Object(o.Value())
  }

  ghost function RefValues(elements: seq<Ref>, within: set<object>): (values: seq<Node>)
    requires forall e :: e in elements ==> RefValid(e, within)
    reads within
    ensures |values| == |elements|
    ensures forall i :: 0 <= i < |elements| ==> values[i] == RefValue(elements[i], within)
    decreases within, 1, elements
  {
    if elements == [] then [] else [RefValue(elements[0], within)] + RefValues(elements[1..], within)
  }

  /** A larger surrounding changes neither validity nor value. */
  lemma {:induction false} Wider(r: Ref, within: set<object>, wider: set<object>)
    requires RefValid(r, within) && within <= wider
    ensures RefValid(r, wider) && RefValue(r, wider) == RefValue(r, within)
    decreases r
  {
    if r.ArrayRef? {
      forall i | 0 <= i < |r.elements|
        ensures RefValid(r.elements[i], wider) && RefValue(r.elements[i], wider) == RefValue(r.elements[i], within)
      {
        Wider(r.elements[i], within, wider);
      }
      assert forall e :: e in r.elements ==> RefValid(e, wider);
      assert RefValues(r.elements, wider) == RefValues(r.elements, within);
    }
  }

  /** Writing one field of an object nothing below it leads back to. */
  method SetField(container: JsObject, name: Text, r: Ref, ghost reach: set<object>)
    requires container.Valid() && container !in reach && container.Repr - {container} <= reach
    requires RefValid(r, reach)
    modifies container
    ensures container.Valid() && container.Repr == reach + {container}
    ensures container.fields == old(container.fields)[name := r]
    ensures container.Value() == old(container.Value())[name := old(RefValue(r, reach))]
  {
    ghost var inner := container.Repr - {container};
    forall k | k in container.fields
      ensures RefValid(container.fields[k], reach) && RefValue(container.fields[k], reach) == RefValue(container.fields[k], inner)
    {
      Wider(container.fields[k], inner, reach);
    }
    container.fields := container.fields[name := r];
    container.Repr := reach + {container};
    assert container.Repr - {container} == reach;
  }

  method DeleteField(container: JsObject, name: Text)
    requires container.Valid()
    modifies container
    ensures container.Valid() && container.Repr == old(container.Repr)
    ensures container.Value() == old(container.Value()) - {name}
  {
    container.fields := container.fields - {name};
  }

  /**
   * Deletes the leaf `segments` address, writing to `container` alone: every object
   * on the way is copied first.
   */
  method ExcludePath(container: JsObject, segments: Path)
    requires container.Valid()
    modifies container
    ensures container.Valid() && fresh(container.Repr - old(container.Repr))
    ensures container.Value() == Exclude(old(container.Value()), segments)
    decreases segments, 1
  {
    var head, rest := segments[0], segments[1..];
    if rest == [] {
      DeleteField(container, head);
      return;
    }
    if head !in container.fields {
      return;
    }
    var next := container.fields[head];
    ghost var inner := container.Repr - {container};
    if next.ArrayRef? {
      ExcludeFromArray(container, head, rest);
      return;
    }
    if next.LeafRef? {
      assert container.Value()[head := container.Value()[head]] == container.Value();
      return;
    }
    var copy := new JsObject.Spread(next.target);
    ExcludePath(copy, rest);
    Wider(ObjectRef(copy), copy.Repr, inner + copy.Repr);
    SetField(container, head, ObjectRef(copy), inner + copy.Repr);
  }

  /** The array in field `head` with `rest` excluded from a copy of each object in it. */
  method ExcludeFromArray(container: JsObject, head: Text, rest: Path)
    requires container.Valid() && head in container.fields && container.fields[head].ArrayRef?
    modifies container
    ensures container.Valid() && fresh(container.Repr - old(container.Repr))
    ensures container.Value() == Exclude(old(container.Value()), [head] + rest)
    decreases rest, 4
  {
    var next := container.fields[head];
    ghost var inner := container.Repr - {container};
    assert RefValid(next, inner) && ([head] + rest)[1..] == rest;
    var copy, changed, reach := ExcludeFromEach(next.elements, rest, inner);
    if changed {
      SetField(container, head, ArrayRef(copy), reach);
    } else {
      AllWider(next.elements, inner, reach);
      assert container.Value()[head := container.Value()[head]] == container.Value();
    }
  }

  /** An element with `segments` excluded from a copy when it is an object, and what that holds beyond `within`. */
  method ExcludeFromOne(element: Ref, segments: Path, ghost within: set<object>)
    returns (kept: Ref, copied: bool, ghost reach: set<object>)
    requires RefValid(element, within)
    ensures within <= reach && fresh(reach - within) && RefValid(kept, reach)
    ensures RefValue(kept, reach) == ExcludeElement(old(RefValue(element, within)), segments)
    ensures !copied ==> kept == element
    decreases segments, 2
  {
    if !element.ObjectRef? {
      return element, false, within;
    }
    var elementCopy := new JsObject.Spread(element.target);
    ExcludePath(elementCopy, segments);
    kept, copied, reach := ObjectRef(elementCopy), true, within + elementCopy.Repr;
  }

  ghost predicate AllValid(elements: seq<Ref>, within: set<object>)
    reads within
  {
    forall e :: e in elements ==> RefValid(e, within)
  }

  lemma AllWider(elements: seq<Ref>, within: set<object>, wider: set<object>)
    requires AllValid(elements, within) && within <= wider
    ensures AllValid(elements, wider) && RefValues(elements, wider) == RefValues(elements, within)
  {
    forall i | 0 <= i < |elements|
      ensures RefValid(elements[i], wider) && RefValue(elements[i], wider) == RefValue(elements[i], within)
    {
      Wider(elements[i], within, wider);
    }
    assert AllValid(elements, wider);
  }

  lemma PrependOne(first: Ref, rest: seq<Ref>, within: set<object>)
    requires RefValid(first, within) && AllValid(rest, within)
    ensures AllValid([first] + rest, within)
    ensures RefValues([first] + rest, within) == [RefValue(first, within)] + RefValues(rest, within)
  {
    assert forall x :: x in [first] + rest <==> x == first || x in rest;
    assert AllValid([first] + rest, within);
    assert ([first] + rest)[1..] == rest;
  }

  /** A copy of every plain object among `elements` with `segments` excluded; the others as they are. */
  method ExcludeFromEach(elements: seq<Ref>, segments: Path, ghost within: set<object>)
    returns (copy: seq<Ref>, changed: bool, ghost reach: set<object>)
    requires AllValid(elements, within)
    ensures within <= reach && fresh(reach - within) && AllValid(copy, reach)
    ensures RefValues(copy, reach) == ExcludeEach(old(RefValues(elements, within)), segments)
    ensures !changed ==> copy == elements
    decreases segments, 3, |elements|
  {
    if elements == [] {
      return [], false, within;
    }
    ghost var values := RefValues(elements, within);
    var first, copied, reached := ExcludeFromOne(elements[0], segments, within);
    AllWider(elements[1..], within, reached);
    var rest, others;
    rest, others, reach := ExcludeFromEach(elements[1..], segments, reached);
    Wider(first, reached, reach);
    PrependOne(first, rest, reach);
    assert ExcludeEach(values, segments) == [ExcludeElement(values[0], segments)] + ExcludeEach(values[1..], segments);
    copy, changed := [first] + rest, copied || others;
  }

  /** The projection of a document: a new one, the given one as it was. */
  method ApplyProjection(doc: JsObject, paths: seq<Path>, includeId: bool) returns (result: JsObject)
    requires doc.Valid()
    ensures fresh(result) && result.Valid()
    ensures result.Value() == ExcludeAll(old(doc.Value()), InForce(paths, includeId))
    ensures Leaves(old(doc.Value()), paths, includeId, result.Value())
    ensures doc.Valid() && doc.Value() == old(doc.Value())
  {
    ExclusionLeaves(doc.Value(), paths, includeId);
    result := new JsObject.Spread(doc);
    ghost var all := InForce(paths, includeId);
    var i := 0;
    assert all[0..] == all;
    while i < |paths|
      invariant 0 <= i <= |paths|
      invariant result.Valid() && fresh(result) && fresh(result.Repr - old(doc.Repr))
      invariant ExcludeAll(result.Value(), all[i..]) == ExcludeAll(old(doc.Value()), all)
    {
      ExcludeNext(result.Value(), paths, includeId, i);
      if |paths[i]| > 1 {
        ExcludePath(result, paths[i]);
      } else {
        SingleExclude(result.Value(), paths[i]);
        DeleteField(result, paths[i][0]);
      }
      i := i + 1;
    }
    if !includeId {
      ExcludeNext(result.Value(), paths, includeId, i);
      SingleExclude(result.Value(), [UNDERSCORE_ID]);
      DeleteField(result, UNDERSCORE_ID);
      assert all[i + 1..] == [];
    } else {
      assert all[i..] == [];
    }
  }
}
