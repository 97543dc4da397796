/**
 * The values a driver's caller holds, and the two shapes of plain document the
 * driver gives a meaning of its own: the stored form of an ObjectId and a GeoJSON
 * geometry. A document's fields are a map, since SurrealDB keeps no field order.
 */
module BsonItems {
  import opened Values
  import opened Identifiers

  /** The id part of a record id: a whole number, a string, or a value such as a tagged id. */
  datatype IdPart = WholePart(number: int) | TextPart(text: Text) | ValuePart(value: Item)

  datatype RecordId = RecordId(table: Text, part: IdPart)

  type Fields = map<Text, Item>

  /** A value; `Geometry` and `Record` are the client library's own objects. */
  datatype Item =
    | Nil
    | Flag(flag: bool)
    | Number(number: real)
    | NaN
    | Infinity(negative: bool)
    | String(text: Text)
    | Id(hex: Text)
    | Date(milliseconds: int)
    | List(items: seq<Item>)
    | Doc(fields: map<Text, Item>)
    | OtherBson(kind: Text)
    | Geometry(json: Item)
    | Record(record: RecordId)
    | ServerValue(tag: int)

  // Stored ids.

  /** `$oid`. */
  const OID: Text := [36, 111, 105, 100]

  /** A single field `$oid` with 24 lowercase hexadecimal characters: how an id is stored. */
  predicate IsTagged(v: Item) {
    v.Doc? && v.fields.Keys == {OID} && v.fields[OID].String? && IsHex24(v.fields[OID].text)
  }

  function FromTagged(v: Item): Option<Item> {
    if IsTagged(v) then Some(Id(v.fields[OID].text)) else None
  }

  /** Rebuilding changes `v`: it is, or has inside it, a stored id or a geometry object. */
  predicate Holds(v: Item)
    decreases v, 1
  {
    IsTagged(v) || v.Geometry? || (v.List? && exists x :: x in v.items && Holds(x)) || (v.Doc? && FieldsHold(v.fields))
  }

  predicate FieldsHold(fields: Fields)
    decreases Doc(fields), 0
  {
    exists k :: k in fields && Holds(fields[k])
  }

  // Geometries.

  /** `type`. */
  const TYPE: Text := [116, 121, 112, 101]

  /** `coordinates`. */
  const COORDINATES: Text := [99, 111, 111, 114, 100, 105, 110, 97, 116, 101, 115]

  /** `geometries`. */
  const GEOMETRIES: Text := [103, 101, 111, 109, 101, 116, 114, 105, 101, 115]

  datatype Shape = Point | LineString | Polygon | MultiPoint | MultiLineString | MultiPolygon | GeometryCollection

  const POINT: Text := [80, 111, 105, 110, 116]
  const LINE_STRING: Text := [76, 105, 110, 101, 83, 116, 114, 105, 110, 103]
  const POLYGON: Text := [80, 111, 108, 121, 103, 111, 110]
  const MULTI: Text := [77, 117, 108, 116, 105]
  const GEOMETRY_COLLECTION: Text :=
    [71, 101, 111, 109, 101, 116, 114, 121, 67, 111, 108, 108, 101, 99, 116, 105, 111, 110]

  function ShapeNamed(name: Text): Option<Shape> {
    if name == POINT then Some(Point)
    else if name == LINE_STRING then Some(LineString)
    else if name == POLYGON then Some(Polygon)
    else if name == MULTI + POINT then Some(MultiPoint)
    else if name == MULTI + LINE_STRING then Some(MultiLineString)
    else if name == MULTI + POLYGON then Some(MultiPolygon)
    else if name == GEOMETRY_COLLECTION then Some(GeometryCollection)
    else None
  }

  function PayloadKey(shape: Shape): Text {
    if shape.GeometryCollection? then GEOMETRIES else COORDINATES
  }

  /** Exactly two fields: a geometry's type and the list that goes with it. */
  function ShapeOf(v: Item): Option<Shape> {
    if !v.Doc? || TYPE !in v.fields || !v.fields[TYPE].String? then None else
    var shape := ShapeNamed(v.fields[TYPE].text);
    if shape.None? then None else
    var key := PayloadKey(shape.value);
    if v.fields.Keys == {TYPE, key} && v.fields[key].List? then shape else None
  }

  predicate IsGeometry(v: Item) {
    ShapeOf(v).Some?
  }

  /** The coordinates of a recognised geometry, or its members. */
  function Payload(v: Item): (payload: Item)
    requires IsGeometry(v)
    ensures payload.List? && payload < v
  {
    v.fields[PayloadKey(ShapeOf(v).value)]
  }

  /** Exactly two finite numbers. */
  predicate IsPosition(v: Item) {
    v.List? && |v.items| == 2 && v.items[0].Number? && v.items[1].Number?
  }

  predicate IsLine(v: Item) {
    v.List? && |v.items| >= 2 && forall x :: x in v.items ==> IsPosition(x)
  }

  /** Four positions or more, the last repeating the first. */
  predicate IsRing(v: Item) {
    && v.List? && |v.items| >= 4
    && (forall x :: x in v.items ==> IsPosition(x))
    && v.items[0] == v.items[|v.items| - 1]
  }

  predicate IsPolygon(v: Item) {
    v.List? && v.items != [] && forall x :: x in v.items ==> IsRing(x)
  }

  /** The coordinates are ones the server's geometry can hold. */
  predicate ValidGeometry(v: Item)
    requires IsGeometry(v)
    decreases v
  {
    var payload := Payload(v);
    match ShapeOf(v).value
    case Point => IsPosition(payload)
    case LineString => IsLine(payload)
    case Polygon => IsPolygon(payload)
    case MultiPoint => payload.items != [] && forall x :: x in payload.items ==> IsPosition(x)
    case MultiLineString => payload.items != [] && forall x :: x in payload.items ==> IsLine(x)
    case MultiPolygon => payload.items != [] && forall x :: x in payload.items ==> IsPolygon(x)
    case GeometryCollection => payload.items != [] && forall x :: x in payload.items ==> IsGeometry(x) && ValidGeometry(x)
  }

  lemma PositionIsPlain(v: Item)
    requires IsPosition(v)
    ensures !Holds(v)
  {
  }

  lemma LineIsPlain(v: Item)
    requires IsLine(v) || IsRing(v)
    ensures !Holds(v)
  {
    forall x | x in v.items
      ensures !Holds(x)
    {
      PositionIsPlain(x);
    }
  }

  lemma PolygonIsPlain(v: Item)
    requires IsPolygon(v)
    ensures !Holds(v)
  {
    forall x | x in v.items
      ensures !Holds(x)
    {
      LineIsPlain(x);
    }
  }

  lemma {:induction false} PayloadIsPlain(v: Item)
    requires IsGeometry(v) && ValidGeometry(v)
    ensures !Holds(Payload(v))
    decreases v, 0
  {
    var payload := Payload(v);
    match ShapeOf(v).value
    case Point => PositionIsPlain(payload);
    case LineString => LineIsPlain(payload);
    case Polygon => PolygonIsPlain(payload);
    case MultiPoint =>
      forall x | x in payload.items ensures !Holds(x) { PositionIsPlain(x); }
    case MultiLineString =>
      forall x | x in payload.items ensures !Holds(x) { LineIsPlain(x); }
    case MultiPolygon =>
      forall x | x in payload.items ensures !Holds(x) { PolygonIsPlain(x); }
    case GeometryCollection =>
      forall x | x in payload.items ensures !Holds(x) { GeometryIsPlain(x); }
  }

  /** A well-formed geometry has no stored id in it, and is none itself. */
  lemma {:induction false} GeometryIsPlain(v: Item)
    requires IsGeometry(v) && ValidGeometry(v)
    ensures !Holds(v) && !IsTagged(v)
    decreases v, 1
  {
    PayloadIsPlain(v);
    var key := PayloadKey(ShapeOf(v).value);
    assert TYPE in v.fields && |TYPE| == 4 && |key| > 4;
    assert TYPE[0] != OID[0];
    forall k | k in v.fields
      ensures !Holds(v.fields[k])
    {
      assert k == TYPE || k == key;
    }
  }
}
