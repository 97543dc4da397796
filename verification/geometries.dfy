/**
 * GeoJSON geometries as values of their own, and the documents that stand for them: the
 * documents the driver sends as geometries are those and no others.
 */
module Geometries {
  import opened Values
  import opened Identifiers
  import opened BsonItems

  datatype Position = Position(longitude: real, latitude: real)

  type Line = seq<Position>

  datatype Geometry =
    | PointAt(at: Position)
    | LineAlong(line: Line)
    | Area(rings: seq<Line>)
    | Points(points: Line)
    | Lines(lines: seq<Line>)
    | Areas(areas: seq<seq<Line>>)
    | Collected(members: seq<Geometry>)

  /** Closed, and enclosing something. */
  predicate Ring(line: Line) {
    |line| > 3 && line[0] == line[|line| - 1]
  }

  predicate Polygonal(rings: seq<Line>) {
    |rings| > 0 && forall r :: r in rings ==> Ring(r)
  }

  predicate Formed(g: Geometry) {
    match g
    case PointAt(_) => true
    case LineAlong(line) => |line| > 1
    case Area(rings) => Polygonal(rings)
    case Points(points) => |points| > 0
    case Lines(lines) => |lines| > 0 && forall l :: l in lines ==> |l| > 1
    case Areas(areas) => |areas| > 0 && forall a :: a in areas ==> Polygonal(a)
    case Collected(members) => |members| > 0 && forall m :: m in members ==> Formed(m)
  }

  function Pair(p: Position): Item {
    List([Number(p.longitude), Number(p.latitude)])
  }

  function Along(line: Line): Item {
    List(seq(|line|, i requires 0 <= i < |line| => Pair(line[i])))
  }

  function AlongAll(lines: seq<Line>): Item {
    List(seq(|lines|, i requires 0 <= i < |lines| => Along(lines[i])))
  }

  function AlongEvery(areas: seq<seq<Line>>): Item {
    List(seq(|areas|, i requires 0 <= i < |areas| => AlongAll(areas[i])))
  }

  /** The code units of plain text. */
  function Spelled(s: string): Text {
    seq(|s|, i requires 0 <= i < |s| => s[i] as int)
  }

  function Name(g: Geometry): Text {
    match g
    case PointAt(_) => Spelled("Point")
    case LineAlong(_) => Spelled("LineString")
    case Area(_) => Spelled("Polygon")
    case Points(_) => Spelled("MultiPoint")
    case Lines(_) => Spelled("MultiLineString")
    case Areas(_) => Spelled("MultiPolygon")
    case Collected(_) => Spelled("GeometryCollection")
  }

  /** The document that stands for a geometry. */
  function Written(g: Geometry): Item {
    if g.Collected?
    then Doc(map[Spelled("type") := String(Name(g)),
                 Spelled("geometries") := List(seq(|g.members|, i requires 0 <= i < |g.members| => Written(g.members[i])))])
    else Doc(map[Spelled("type") := String(Name(g)), Spelled("coordinates") := Coordinates(g)])
  }

  function Coordinates(g: Geometry): Item
    requires !g.Collected?
  {
    match g
    case PointAt(at) => Pair(at)
    case LineAlong(line) => Along(line)
    case Area(rings) => AlongAll(rings)
    case Points(points) => Along(points)
    case Lines(lines) => AlongAll(lines)
    case Areas(areas) => AlongEvery(areas)
  }

  // The names.

  lemma KeysAre()
    ensures TYPE == Spelled("type") && COORDINATES == Spelled("coordinates") && GEOMETRIES == Spelled("geometries")
  {
  }

  lemma SingleNames()
    ensures POINT == Spelled("Point") && LINE_STRING == Spelled("LineString") && POLYGON == Spelled("Polygon")
    ensures GEOMETRY_COLLECTION == Spelled("GeometryCollection")
  {
  }

  lemma MultiNames()
    ensures MULTI + POINT == Spelled("MultiPoint") && MULTI + LINE_STRING == Spelled("MultiLineString")
    ensures MULTI + POLYGON == Spelled("MultiPolygon")
  {
  }

  /** The kind of geometry. */
  function ShapeFor(g: Geometry): Shape {
    match g
    case PointAt(_) => Point
    case LineAlong(_) => LineString
    case Area(_) => Polygon
    case Points(_) => MultiPoint
    case Lines(_) => MultiLineString
    case Areas(_) => MultiPolygon
    case Collected(_) => GeometryCollection
  }

  lemma NameLengths()
    ensures |POINT| == 5 && |LINE_STRING| == 10 && |POLYGON| == 7 && |MULTI| == 5 && |GEOMETRY_COLLECTION| == 18
    ensures MULTI + POINT != LINE_STRING
  {
    assert (MULTI + POINT)[0] == 77 && LINE_STRING[0] == 76;
  }

  lemma NamesAreRead(g: Geometry)
    ensures ShapeNamed(Name(g)) == Some(ShapeFor(g))
  {
    SingleNames();
    MultiNames();
    NameLengths();
  }

  // Coordinates.

  function ReadPair(v: Item): (p: Position)
    requires IsPosition(v)
    ensures Pair(p) == v
  {
    Position(v.items[0].number, v.items[1].number)
  }

  function ReadLine(v: Item): (line: Line)
    requires v.List? && forall x :: x in v.items ==> IsPosition(x)
    ensures Along(line) == v && |line| == |v.items|
  {
    seq(|v.items|, i requires 0 <= i < |v.items| => ReadPair(v.items[i]))
  }

  function ReadLines(v: Item): (lines: seq<Line>)
    requires v.List? && forall x :: x in v.items ==> x.List? && forall y :: y in x.items ==> IsPosition(y)
    ensures AlongAll(lines) == v && |lines| == |v.items|
  {
    seq(|v.items|, i requires 0 <= i < |v.items| => ReadLine(v.items[i]))
  }

  lemma PairIsPosition(p: Position)
    ensures IsPosition(Pair(p))
  {
  }

  lemma LineIs(line: Line)
    ensures forall x :: x in Along(line).items ==> IsPosition(x)
    ensures IsLine(Along(line)) <==> |line| > 1
    ensures IsRing(Along(line)) <==> Ring(line)
  {
    if |line| > 3 {
      var items := Along(line).items;
      assert items[0] == Pair(line[0]) && items[|line| - 1] == Pair(line[|line| - 1]);
    }
  }

  lemma AreaIs(rings: seq<Line>)
    ensures IsPolygon(AlongAll(rings)) <==> Polygonal(rings)
  {
    var items := AlongAll(rings).items;
    forall i | 0 <= i < |rings|
      ensures items[i] == Along(rings[i]) && (IsRing(items[i]) <==> Ring(rings[i]))
    {
      LineIs(rings[i]);
    }
    if IsPolygon(AlongAll(rings)) {
      forall r | r in rings
        ensures Ring(r)
      {
        var i :| 0 <= i < |rings| && rings[i] == r;
        assert items[i] in items;
      }
    }
  }

  lemma NamesTell(name: Text, g: Geometry)
    requires ShapeNamed(name) == Some(ShapeFor(g))
    ensures name == Name(g)
  {
    SingleNames();
    MultiNames();
  }

  // The documents.

  /** A document of a geometry's name and a list of its own. */
  function Labelled(name: Text, key: Text, payload: Item): Item {
    Doc(map[TYPE := String(name), key := payload])
  }

  function Members(g: Geometry): Item
    requires g.Collected?
  {
    List(seq(|g.members|, i requires 0 <= i < |g.members| => Written(g.members[i])))
  }

  lemma WrittenIsLabelled(g: Geometry)
    ensures Written(g) == if g.Collected? then Labelled(Name(g), GEOMETRIES, Members(g)) else Labelled(Name(g), COORDINATES, Coordinates(g))
  {
    KeysAre();
  }

  lemma LabelledIs(name: Text, shape: Shape, payload: Item)
    requires ShapeNamed(name) == Some(shape) && payload.List?
    ensures var v := Labelled(name, PayloadKey(shape), payload);
            ShapeOf(v) == Some(shape) && Payload(v) == payload
  {
    assert |TYPE| == 4 && |COORDINATES| == 11 && |GEOMETRIES| == 10;
    var v := Labelled(name, PayloadKey(shape), payload);
    assert v.fields.Keys == {TYPE, PayloadKey(shape)};
  }

  /** What stands for a geometry is recognised as one of its kind. */
  lemma WrittenIs(g: Geometry)
    ensures ShapeOf(Written(g)) == Some(ShapeFor(g))
    ensures Payload(Written(g)) == if g.Collected? then Members(g) else Coordinates(g)
  {
    NamesAreRead(g);
    WrittenIsLabelled(g);
    LabelledIs(Name(g), ShapeFor(g), if g.Collected? then Members(g) else Coordinates(g));
  }

  /** It is valid exactly when the geometry is well formed. */
  lemma {:induction false} ValidWhenFormed(g: Geometry)
    ensures IsGeometry(Written(g)) && (ValidGeometry(Written(g)) <==> Formed(g))
    decreases g
  {
    WrittenIs(g);
    if g.Collected? {
      CollectedWhenFormed(g);
    } else {
      CoordinatesWhenFormed(g);
    }
  }

  lemma {:induction false} CollectedWhenFormed(g: Geometry)
    requires g.Collected? && ShapeOf(Written(g)) == Some(ShapeFor(g)) && Payload(Written(g)) == Members(g)
    ensures ValidGeometry(Written(g)) <==> Formed(g)
    decreases g, 0
  {
    var items := Members(g).items;
    forall i | 0 <= i < |items|
      ensures items[i] == Written(g.members[i]) && IsGeometry(items[i]) && (ValidGeometry(items[i]) <==> Formed(g.members[i]))
    {
      ValidWhenFormed(g.members[i]);
    }
    if ValidGeometry(Written(g)) {
      forall m | m in g.members
        ensures Formed(m)
      {
        var i :| 0 <= i < |g.members| && g.members[i] == m;
        assert items[i] in items;
      }
    }
  }

  lemma CoordinatesWhenFormed(g: Geometry)
    requires !g.Collected? && ShapeOf(Written(g)) == Some(ShapeFor(g)) && Payload(Written(g)) == Coordinates(g)
    ensures ValidGeometry(Written(g)) <==> Formed(g)
  {
    match g
    case PointAt(at) => PairIsPosition(at);
    case LineAlong(line) => LineIs(line);
    case Area(rings) => AreaIs(rings);
    case Points(points) => LineIs(points);
    case Lines(lines) => LinesAre(lines);
    case Areas(areas) => AreasAre(areas);
  }

  lemma LinesAre(lines: seq<Line>)
    ensures (forall x :: x in AlongAll(lines).items ==> IsLine(x)) <==> forall l :: l in lines ==> |l| > 1
  {
    var items := AlongAll(lines).items;
    forall i | 0 <= i < |lines|
      ensures items[i] == Along(lines[i]) && (IsLine(items[i]) <==> |lines[i]| > 1)
    {
      LineIs(lines[i]);
    }
    if forall x :: x in items ==> IsLine(x) {
      forall l | l in lines
        ensures |l| > 1
      {
        var i :| 0 <= i < |lines| && lines[i] == l;
        assert items[i] in items;
      }
    }
  }

  lemma AreasAre(areas: seq<seq<Line>>)
    ensures (forall x :: x in AlongEvery(areas).items ==> IsPolygon(x)) <==> forall a :: a in areas ==> Polygonal(a)
  {
    var items := AlongEvery(areas).items;
    forall i | 0 <= i < |areas|
      ensures items[i] == AlongAll(areas[i]) && (IsPolygon(items[i]) <==> Polygonal(areas[i]))
    {
      AreaIs(areas[i]);
    }
    if forall x :: x in items ==> IsPolygon(x) {
      forall a | a in areas
        ensures Polygonal(a)
      {
        var i :| 0 <= i < |areas| && areas[i] == a;
        assert items[i] in items;
      }
    }
  }

  // Reading a document back.

  function ReadRings(v: Item): (rings: seq<Line>)
    requires IsPolygon(v)
    ensures AlongAll(rings) == v
  {
    ReadLines(v)
  }

  function ReadAreas(v: Item): (areas: seq<seq<Line>>)
    requires v.List? && forall x :: x in v.items ==> IsPolygon(x)
    ensures AlongEvery(areas) == v
  {
    seq(|v.items|, i requires 0 <= i < |v.items| => ReadRings(v.items[i]))
  }

  function ReadFlat(v: Item): (g: Geometry)
    requires IsGeometry(v) && ValidGeometry(v) && ShapeOf(v) != Some(GeometryCollection)
    ensures !g.Collected? && ShapeFor(g) == ShapeOf(v).value && Coordinates(g) == Payload(v)
  {
    var payload := Payload(v);
    match ShapeOf(v).value
    case Point => PointAt(ReadPair(payload))
    case LineString => LineAlong(ReadLine(payload))
    case Polygon => Area(ReadRings(payload))
    case MultiPoint => Points(ReadLine(payload))
    case MultiLineString => Lines(ReadLines(payload))
    case MultiPolygon => Areas(ReadAreas(payload))
  }

  lemma RecognisedIsLabelled(v: Item)
    requires IsGeometry(v)
    ensures v.fields[TYPE].String? && ShapeNamed(v.fields[TYPE].text) == ShapeOf(v)
    ensures v == Labelled(v.fields[TYPE].text, PayloadKey(ShapeOf(v).value), Payload(v))
  {
  }

  function Sample(shape: Shape): (g: Geometry)
    ensures ShapeFor(g) == shape
  {
    match shape
    case Point => PointAt(Position(0.0, 0.0))
    case LineString => LineAlong([])
    case Polygon => Area([])
    case MultiPoint => Points([])
    case MultiLineString => Lines([])
    case MultiPolygon => Areas([])
    case GeometryCollection => Collected([])
  }

  /** Where a geometry's own list stands. */
  function KeyFor(g: Geometry): Text {
    if g.Collected? then GEOMETRIES else COORDINATES
  }

  /** The document has the name of `g`'s kind and a list where that kind has one, and nothing else. */
  ghost predicate LooksLike(v: Item, g: Geometry) {
    exists payload: Item :: payload.List? && v == Labelled(Name(g), KeyFor(g), payload)
  }

  lemma RecognisedLooks(v: Item)
    requires IsGeometry(v)
    ensures LooksLike(v, Sample(ShapeOf(v).value))
  {
    RecognisedIsLabelled(v);
    NamesTell(v.fields[TYPE].text, Sample(ShapeOf(v).value));
  }

  lemma LookIsRecognised(v: Item, g: Geometry)
    requires LooksLike(v, g)
    ensures ShapeOf(v) == Some(ShapeFor(g))
  {
    var payload: Item :| payload.List? && v == Labelled(Name(g), KeyFor(g), payload);
    NamesAreRead(g);
    LabelledIs(Name(g), ShapeFor(g), payload);
  }

  /** A document is taken for a geometry exactly when it looks like one. */
  lemma RecognisedExactly(v: Item)
    ensures IsGeometry(v) <==> exists g :: LooksLike(v, g)
  {
    if IsGeometry(v) {
      RecognisedLooks(v);
    }
    if g :| LooksLike(v, g) {
      LookIsRecognised(v, g);
    }
  }

  /** Every recognised document with valid coordinates stands for some geometry. */
  lemma {:induction false} ReadGeometry(v: Item) returns (g: Geometry)
    requires IsGeometry(v) && ValidGeometry(v)
    ensures Written(g) == v
    decreases v
  {
    RecognisedIsLabelled(v);
    if ShapeOf(v) == Some(GeometryCollection) {
      var members := ReadMembers(Payload(v).items);
      g := Collected(members);
      assert Members(g).items == Payload(v).items;
    } else {
      g := ReadFlat(v);
    }
    NamesTell(v.fields[TYPE].text, g);
    WrittenIsLabelled(g);
  }

  lemma {:induction false} ReadMembers(items: seq<Item>) returns (members: seq<Geometry>)
    requires forall x :: x in items ==> IsGeometry(x) && ValidGeometry(x)
    ensures |members| == |items| && forall i :: 0 <= i < |items| ==> Written(members[i]) == items[i]
    decreases items
  {
    if items == [] {
      members := [];
    } else {
      var first := ReadGeometry(items[0]);
      var rest := ReadMembers(items[1..]);
      members := [first] + rest;
      forall i | 0 <= i < |items|
        ensures Written(members[i]) == items[i]
      {
        if i > 0 {
          assert items[1..][i - 1] == items[i];
        }
      }
    }
  }

  /** The documents sent as geometries are those that stand for a well-formed one. */
  lemma SentExactly(v: Item)
    ensures IsGeometry(v) && ValidGeometry(v) <==> exists g :: Formed(g) && Written(g) == v
  {
    if IsGeometry(v) && ValidGeometry(v) {
      var g := ReadGeometry(v);
      ValidWhenFormed(g);
      assert Formed(g) && Written(g) == v;
    }
    if g :| Formed(g) && Written(g) == v {
      ValidWhenFormed(g);
    }
  }
}
