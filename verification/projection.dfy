/**
 * Exclusion projections: removing the fields dotted paths name from a document,
 * in every plain object of any array on the way.
 */
module Projections {
  import opened Identifiers

  /** A value: plain objects and arrays can be walked, anything else cannot. */
  datatype Node = Leaf(id: int) | Items(elements: seq<Node>) | Object(fields: map<Text, Node>)

  type Fields = map<Text, Node>

  /** A dotted path, by its segments. */
  type Path = p: seq<Text> | p != [] witness [[]]

  // What an exclusion does.

  function Exclude(container: Fields, segments: Path): Fields
    decreases segments, 0
  {
    var head, rest := segments[0], segments[1..];
    if rest == [] then container - {head}
    else if head in container then container[head := ExcludeInside(container[head], rest)]
    else container
  }

  /** The value after `segments` are excluded from it, or from each plain object in it. */
  function ExcludeInside(v: Node, segments: Path): Node
    decreases segments, 3
  {
    match v
    case Leaf(_) => v
    case Items(elements) => Items(ExcludeEach(elements, segments))
    case Object(fields) => Object(Exclude(fields, segments))
  }

  function ExcludeElement(v: Node, segments: Path): Node
    decreases segments, 1
  {
    if v.Object? then Object(Exclude(v.fields, segments)) else v
  }

  function ExcludeEach(elements: seq<Node>, segments: Path): (r: seq<Node>)
    ensures |r| == |elements|
    ensures forall i :: 0 <= i < |r| ==> r[i] == ExcludeElement(elements[i], segments)
    decreases segments, 2, elements
  {
    if elements == [] then [] else [ExcludeElement(elements[0], segments)] + ExcludeEach(elements[1..], segments)
  }

  function ExcludeAll(doc: Fields, paths: seq<Path>): Fields
  {
    if paths == [] then doc else ExcludeAll(Exclude(doc, paths[0]), paths[1..])
  }

  /** `_id`. */
  const UNDERSCORE_ID: Text := [95, 105, 100]

  /** The paths in force: those listed, and `_id` when it is suppressed. */
  function InForce(paths: seq<Path>, includeId: bool): seq<Path> {
    if includeId then paths else paths + [[UNDERSCORE_ID]]
  }

  // What stands where.

  datatype Step = Key(name: Text) | At(index: nat)

  /** What a location holds, its contents aside. */
  datatype Kind = Missing | LeafKind(id: int) | ItemsKind(length: nat) | ObjectKind

  function Look(v: Node, location: seq<Step>): Kind
    decreases location
  {
    if location == [] then
      match v
      case Leaf(id) => LeafKind(id)
      case Items(elements) => ItemsKind(|elements|)
      case Object(_) => ObjectKind
    else match location[0]
      case Key(name) => if v.Object? && name in v.fields then Look(v.fields[name], location[1..]) else Missing
      case At(i) => if v.Items? && i < |v.elements| then Look(v.elements[i], location[1..]) else Missing
  }

  /**
   * `location` is at or below a place `segments` name: one key after another, with
   * at most one array index between two of them.
   */
  predicate Covered(location: seq<Step>, segments: Path)
    decreases segments, 0
  {
    location != [] && location[0] == Key(segments[0]) &&
    (|segments| == 1 || CoveredInside(location[1..], segments[1..]))
  }

  predicate CoveredInside(location: seq<Step>, segments: Path)
    decreases segments, 1
  {
    Covered(location, segments) || (location != [] && location[0].At? && Covered(location[1..], segments))
  }

  /** What stands at a location after the exclusions: nothing where one covers it, else what stood there. */
  function Expected(doc: Node, location: seq<Step>, covered: bool): Kind {
    if covered then Missing else Look(doc, location)
  }

  /** Excluding removes exactly what is at or below the path, and nothing else changes anywhere. */
  lemma {:induction false} ExcludeRemovesExactly(container: Fields, segments: Path, location: seq<Step>)
    ensures Look(Object(Exclude(container, segments)), location) == Expected(Object(container), location, Covered(location, segments))
    decreases segments, 0
  {
    if location != [] && location[0] == Key(segments[0]) && |segments| > 1 && segments[0] in container {
      InsideRemovesExactly(container[segments[0]], segments[1..], location[1..]);
    }
  }

  lemma {:induction false} InsideRemovesExactly(v: Node, segments: Path, location: seq<Step>)
    ensures Look(ExcludeInside(v, segments), location) == Expected(v, location, CoveredInside(location, segments))
    decreases segments, 2
  {
    match v
    case Leaf(_) =>
    case Items(elements) =>
      if location != [] && location[0].At? && location[0].index < |elements| {
        ElementRemovesExactly(elements[location[0].index], segments, location[1..]);
      }
    case Object(fields) =>
      ExcludeRemovesExactly(fields, segments, location);
  }

  lemma ElementRemovesExactly(v: Node, segments: Path, location: seq<Step>)
    ensures Look(ExcludeElement(v, segments), location) == Expected(v, location, Covered(location, segments))
    decreases segments, 1
  {
    if v.Object? {
      ExcludeRemovesExactly(v.fields, segments, location);
    }
  }

  predicate CoveredBy(location: seq<Step>, paths: seq<Path>) {
    exists p :: p in paths && Covered(location, p)
  }

  lemma {:induction false} ExcludeAllRemovesExactly(doc: Fields, paths: seq<Path>, location: seq<Step>)
    ensures Look(Object(ExcludeAll(doc, paths)), location) == Expected(Object(doc), location, CoveredBy(location, paths))
    decreases paths
  {
    if paths != [] {
      ExcludeRemovesExactly(doc, paths[0], location);
      ExcludeAllRemovesExactly(Exclude(doc, paths[0]), paths[1..], location);
      assert forall p :: p in paths <==> p == paths[0] || p in paths[1..];
    }
  }

  // Two values that look alike everywhere are equal.

  lemma {:induction false} LooksDecide(a: Node, b: Node)
    requires forall location :: Look(a, location) == Look(b, location)
    ensures a == b
    decreases a
  {
    assert Look(a, []) == Look(b, []);
    match a
    case Leaf(_) =>
    case Items(elements) =>
      forall i | 0 <= i < |elements|
        ensures elements[i] == b.elements[i]
      {
        forall location
          ensures Look(elements[i], location) == Look(b.elements[i], location)
        {
          assert Look(a, [At(i)] + location) == Look(b, [At(i)] + location);
          assert ([At(i)] + location)[1..] == location;
        }
        LooksDecide(elements[i], b.elements[i]);
      }
    case Object(fields) =>
      forall name
        ensures name in fields <==> name in b.fields
        ensures name in fields ==> fields[name] == b.fields[name]
      {
        assert Look(a, [Key(name)]) == Look(b, [Key(name)]);
        FieldSeen(fields, name, []);
        FieldSeen(b.fields, name, []);
        if name in fields {
          forall location
            ensures Look(fields[name], location) == Look(b.fields[name], location)
          {
            FieldSeen(fields, name, location);
            FieldSeen(b.fields, name, location);
            assert Look(a, [Key(name)] + location) == Look(b, [Key(name)] + location);
          }
          LooksDecide(fields[name], b.fields[name]);
        }
      }
  }

  lemma FieldSeen(fields: Fields, name: Text, location: seq<Step>)
    ensures Look(Object(fields), [Key(name)] + location) == if name in fields then Look(fields[name], location) else Missing
    ensures Look(Object(fields), [Key(name)]) == Missing <==> name !in fields
  {
    assert ([Key(name)] + location)[1..] == location && [Key(name)][1..] == [];
  }

  /** Neither the order of the exclusions nor naming one twice matters. */
  lemma OrderIsIrrelevant(doc: Fields, paths: seq<Path>, others: seq<Path>)
    requires forall p :: p in paths <==> p in others
    ensures ExcludeAll(doc, paths) == ExcludeAll(doc, others)
  {
    forall location
      ensures Look(Object(ExcludeAll(doc, paths)), location) == Look(Object(ExcludeAll(doc, others)), location)
    {
      ExcludeAllRemovesExactly(doc, paths, location);
      ExcludeAllRemovesExactly(doc, others, location);
    }
    LooksDecide(Object(ExcludeAll(doc, paths)), Object(ExcludeAll(doc, others)));
  }

  /** A path below another excluded one adds nothing. */
  lemma LongerPathIsRedundant(doc: Fields, path: Path, longer: Path)
    requires path <= longer
    ensures ExcludeAll(doc, [path, longer]) == ExcludeAll(doc, [path])
  {
    forall location
      ensures Look(Object(ExcludeAll(doc, [path, longer])), location) == Look(Object(ExcludeAll(doc, [path])), location)
    {
      ExcludeAllRemovesExactly(doc, [path, longer], location);
      ExcludeAllRemovesExactly(doc, [path], location);
      CoveredByPrefix(location, path, longer);
    }
    LooksDecide(Object(ExcludeAll(doc, [path, longer])), Object(ExcludeAll(doc, [path])));
  }

  lemma {:induction false} CoveredByPrefix(location: seq<Step>, path: Path, longer: Path)
    requires path <= longer
    ensures Covered(location, longer) ==> Covered(location, path)
    decreases path
  {
    if |path| > 1 && location != [] {
      CoveredByPrefix(location[1..], path[1..], longer[1..]);
      if |location| > 1 {
        CoveredByPrefix(location[1..][1..], path[1..], longer[1..]);
      }
      assert CoveredInside(location[1..], longer[1..]) ==> CoveredInside(location[1..], path[1..]);
      assert path[0] == longer[0];
    }
  }

  lemma {:induction false} FieldIsGone(doc: Fields, paths: seq<Path>, name: Text)
    ensures name in ExcludeAll(doc, paths) <==> name in doc && [name] !in paths
  {
    ExcludeAllRemovesExactly(doc, paths, [Key(name)]);
    FieldSeen(doc, name, []);
    FieldSeen(ExcludeAll(doc, paths), name, []);
    OneKeyCovered(name, paths);
  }

  /** A field at the top is covered exactly by the path of its name alone. */
  lemma OneKeyCovered(name: Text, paths: seq<Path>)
    ensures CoveredBy([Key(name)], paths) <==> [name] in paths
  {
    forall p: Path
      ensures Covered([Key(name)], p) <==> p == [name]
    {
      if |p| > 1 {
        assert [Key(name)][1..] == [] && !CoveredInside([], p[1..]);
      } else {
        assert p == [p[0]];
      }
    }
  }

  /** A suppressed `_id` is gone from the result, a path or not, and no other field goes with it. */
  lemma SuppressedIsGone(doc: Fields, paths: seq<Path>, includeId: bool, name: Text)
    ensures name in ExcludeAll(doc, InForce(paths, includeId))
       <==> name in doc && [name] !in paths && (includeId || name != UNDERSCORE_ID)
  {
    FieldIsGone(doc, InForce(paths, includeId), name);
    var suppressed: Path := [UNDERSCORE_ID];
    assert suppressed == [name] <==> suppressed[0] == name;
  }

  /** What is left to do after the first `i` of the paths in force. */
  lemma ExcludeNext(doc: Fields, paths: seq<Path>, includeId: bool, i: nat)
    requires i < |InForce(paths, includeId)|
    ensures i < |paths| ==> InForce(paths, includeId)[i] == paths[i]
    ensures i >= |paths| ==> !includeId && i == |paths| && InForce(paths, includeId)[i] == [UNDERSCORE_ID]
    ensures ExcludeAll(doc, InForce(paths, includeId)[i..])
         == ExcludeAll(Exclude(doc, InForce(paths, includeId)[i]), InForce(paths, includeId)[i + 1..])
  {
    var all := InForce(paths, includeId);
    assert all[i..][1..] == all[i + 1..];
  }

  lemma SingleExclude(doc: Fields, path: Path)
    requires |path| == 1
    ensures Exclude(doc, path) == doc - {path[0]}
  {
  }

  /** The fields that are left. */
  ghost predicate Leaves(doc: Fields, paths: seq<Path>, includeId: bool, left: Fields) {
    forall name :: name in left <==> name in doc && [name] !in paths && (includeId || name != UNDERSCORE_ID)
  }

  lemma ExclusionLeaves(doc: Fields, paths: seq<Path>, includeId: bool)
    ensures Leaves(doc, paths, includeId, ExcludeAll(doc, InForce(paths, includeId)))
  {
    forall name
      ensures name in ExcludeAll(doc, InForce(paths, includeId))
         <==> name in doc && [name] !in paths && (includeId || name != UNDERSCORE_ID)
    {
      SuppressedIsGone(doc, paths, includeId, name);
    }
  }
}
