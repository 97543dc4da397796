/**
 * How values cross to the server and back: ObjectIds in their tagged form, dates
 * as whole seconds and nanoseconds, and `_id`s as record ids.
 */
module BsonValues {
  import opened Values
  import opened BsonItems
  import opened Identifiers
  import ObjectIds

  /** A value as the server holds it. */
  datatype Stored =
    | StoredNil
    | StoredFlag(flag: bool)
    | StoredNumber(number: real)
    | StoredNaN
    | StoredInfinity(negative: bool)
    | StoredStr(text: Text)
    | Datetime(seconds: int, nanoseconds: int)
    | StoredList(items: seq<Stored>)
    | StoredDoc(fields: map<Text, Stored>)
    | StoredGeometry(json: Item)
    | StoredRecord(record: RecordId)
    | StoredServerValue(tag: int)

  // Dates.

  const MIN_DATE := -8334601228800000
  const MAX_DATE := 8210266876799999

  const NANOS := 1_000_000_000

  /** Days from the first of January 1970 to that of `year`. */
  function DaysTo(year: int): int {
    365 * (year - 1970) + (year - 1) / 4 - (year - 1) / 100 + (year - 1) / 400 - 477
  }

  lemma DaysCount(year: int)
    ensures DaysTo(1970) == 0
    ensures DaysTo(year + 1) - DaysTo(year) == if year % 4 == 0 && (year % 100 != 0 || year % 400 == 0) then 366 else 365
  {
    assert year / 4 - (year - 1) / 4 == if year % 4 == 0 then 1 else 0;
    assert year / 100 - (year - 1) / 100 == if year % 100 == 0 then 1 else 0;
    assert year / 400 - (year - 1) / 400 == if year % 400 == 0 then 1 else 0;
  }

  /** What the server can hold: the years from -262143 to 262142. */
  lemma DatesAreYears(ms: int)
    ensures DateInRange(ms) <==> DaysTo(-262143) * 86_400_000 <= ms < DaysTo(262143) * 86_400_000
  {
  }

  /** The remainder by 1000 that keeps the sign of the dividend. */
  function Remainder(ms: int): int {
    if ms >= 0 then ms % 1000 else -(-ms % 1000)
  }

  /** The seconds and nanoseconds the client library splits a date into. */
  function LibrarySplit(ms: int): Stored {
    Datetime(ms / 1000, Remainder(ms) * 1_000_000)
  }

  predicate DateInRange(ms: int) {
    MIN_DATE <= ms <= MAX_DATE
  }

  /** The driver floors exactly the dates the library would split with a negative part. */
  function EncodeDate(ms: int): Option<Stored> {
    if !DateInRange(ms) then None
    else if ms >= 0 || Remainder(ms) == 0 then Some(LibrarySplit(ms))
    else
      var seconds := ms / 1000;
      Some(Datetime(seconds, (ms - seconds * 1000) * 1_000_000))
  }

  /** The instant in nanoseconds. */
  function Instant(d: Stored): int
    requires d.Datetime?
  {
    d.seconds * NANOS + d.nanoseconds
  }

  function DecodeDate(d: Stored): Item
    requires d.Datetime?
  {
    Date(Instant(d) / 1_000_000)
  }

  /** Every date within range is stored as the same instant, its nanoseconds in bounds. */
  lemma DateKeepsInstant(ms: int)
    ensures EncodeDate(ms).Some? <==> DateInRange(ms)
    ensures DateInRange(ms) ==>
              var d := EncodeDate(ms).value;
              d.Datetime? && 0 <= d.nanoseconds < NANOS && Instant(d) == ms * 1_000_000 && DecodeDate(d) == Date(ms)
  {
    if DateInRange(ms) {
      var d := EncodeDate(ms).value;
      WholeSeconds(ms);
      assert ms == 1000 * (ms / 1000) + ms % 1000;
      assert Instant(d) == ms * 1_000_000;
    }
  }

  lemma WholeSeconds(ms: int)
    ensures Remainder(ms) == 0 <==> ms % 1000 == 0
    ensures ms < 0 && Remainder(ms) != 0 ==> Remainder(ms) < 0
  {
    assert ms == 1000 * (ms / 1000) + ms % 1000;
    if ms < 0 {
      assert -ms == 1000 * (-ms / 1000) + -ms % 1000;
    }
  }

  /** Left to the library a date is right exactly when it is not both early and fractional. */
  lemma LibrarySplitFails(ms: int)
    ensures var d := LibrarySplit(ms);
            (0 <= d.nanoseconds < NANOS && Instant(d) == ms * 1_000_000) <==> ms >= 0 || ms % 1000 == 0
  {
    WholeSeconds(ms);
    assert ms == 1000 * (ms / 1000) + ms % 1000;
  }

  // Encoding.

  function TaggedForm(hex: Text): Item {
    Doc(map[OID := String(ObjectIds.Lower(hex))])
  }

  /** What is sent for a value, none when some part of it is refused. */
  function Encode(v: Item): Option<Stored>
    decreases v, 1
  {
    match v
    case Nil => Some(StoredNil)
    case Flag(b) => Some(StoredFlag(b))
    case Number(n) => Some(StoredNumber(n))
    case NaN => Some(StoredNaN)
    case Infinity(negative) => Some(StoredInfinity(negative))
    case String(t) => Some(StoredStr(t))
    case Id(hex) => Some(StoredDoc(map[OID := StoredStr(ObjectIds.Lower(hex))]))
    case Date(ms) => EncodeDate(ms)
    case List(items) =>
      if forall x :: x in items ==> Encode(x).Some?
      then Some(StoredList(seq(|items|, i requires 0 <= i < |items| => Encode(items[i]).value)))
      else None
    case Doc(fields) =>
      if IsGeometry(v) then (if ValidGeometry(v) then Some(StoredGeometry(v)) else None) else
      var encoded :- EncodeFields(fields);
      Some(StoredDoc(encoded))
    case OtherBson(_) => None
    case Geometry(json) => Some(StoredGeometry(json))
    case Record(record) => Some(StoredRecord(record))
    case ServerValue(tag) => Some(StoredServerValue(tag))
  }

  function EncodeFields(fields: Fields): Option<map<Text, Stored>>
    decreases Doc(fields), 0
  {
    if forall k :: k in fields ==> Encode(fields[k]).Some? then Some(map k | k in fields :: Encode(fields[k]).value) else None
  }

  /** No date out of range, malformed geometry or BSON value of another type anywhere in `v`. */
  predicate Storable(v: Item)
    decreases v, 1
  {
    match v
    case Date(ms) => DateInRange(ms)
    case List(items) => forall x :: x in items ==> Storable(x)
    case Doc(fields) => if IsGeometry(v) then ValidGeometry(v) else StorableFields(fields)
    case OtherBson(_) => false
    case _ => true
  }

  predicate StorableFields(fields: Fields)
    decreases Doc(fields), 0
  {
    forall k :: k in fields ==> Storable(fields[k])
  }

  // Decoding, and rebuilding the ids.

  function Decode(s: Stored): Item
    decreases s, 1
  {
    match s
    case StoredNil => Nil
    case StoredFlag(b) => Flag(b)
    case StoredNumber(n) => Number(n)
    case StoredNaN => NaN
    case StoredInfinity(negative) => Infinity(negative)
    case StoredStr(t) => String(t)
    case Datetime(_, _) => DecodeDate(s)
    case StoredList(items) => List(seq(|items|, i requires 0 <= i < |items| => Decode(items[i])))
    case StoredDoc(fields) => Doc(DecodeFields(fields))
    case StoredGeometry(json) => Geometry(json)
    case StoredRecord(record) => Record(record)
    case StoredServerValue(tag) => ServerValue(tag)
  }

  function DecodeFields(fields: map<Text, Stored>): Fields
    decreases StoredDoc(fields), 0
  {
    map k | k in fields :: Decode(fields[k])
  }

  function Revive(v: Item): Item
    decreases v, 1
  {
    var id := FromTagged(v);
    if id.Some? then id.value
    else if v.Geometry? then v.json
    else if v.List? then List(seq(|v.items|, i requires 0 <= i < |v.items| => Revive(v.items[i])))
    else if v.Doc? then Doc(ReviveFields(v.fields))
    else v
  }

  /** A document's fields are candidates, the document itself is not. */
  function ReviveFields(fields: Fields): Fields
    decreases Doc(fields), 0
  {
    map k | k in fields :: Revive(fields[k])
  }

  /** Every id in `v` is written in 24 lowercase hex characters, as this driver's are. */
  predicate ProperIds(v: Item)
    decreases v, 1
  {
    match v
    case Id(hex) => IsHex24(hex)
    case List(items) => forall x :: x in items ==> ProperIds(x)
    case Doc(fields) => ProperFields(fields)
    case _ => true
  }

  predicate ProperFields(fields: Fields)
    decreases Doc(fields), 0
  {
    forall k :: k in fields ==> ProperIds(fields[k])
  }

  // What encoding decides.

  lemma {:induction false} EncodeDecides(v: Item)
    ensures Encode(v).Some? <==> Storable(v)
    decreases v, 1
  {
    match v
    case Date(ms) => DateKeepsInstant(ms);
    case List(items) =>
      forall x | x in items
        ensures Encode(x).Some? <==> Storable(x)
      {
        EncodeDecides(x);
      }
    case Doc(fields) => EncodeFieldsDecides(fields);
    case _ =>
  }

  lemma {:induction false} EncodeFieldsDecides(fields: Fields)
    ensures EncodeFields(fields).Some? <==> StorableFields(fields)
    decreases Doc(fields), 0
  {
    forall k | k in fields
      ensures Encode(fields[k]).Some? <==> Storable(fields[k])
    {
      EncodeDecides(fields[k]);
    }
  }

  // The round trip.

  function Back(v: Item): Item
    requires Encode(v).Some?
  {
    Revive(Decode(Encode(v).value))
  }

  function FieldsBack(fields: Fields): Fields
    requires EncodeFields(fields).Some?
  {
    ReviveFields(DecodeFields(EncodeFields(fields).value))
  }

  /** What a value decodes to shows which text it was, if it was one. */
  lemma TextStaysText(v: Item)
    requires Encode(v).Some?
    ensures Decode(Encode(v).value).String? <==> v.String?
    ensures v.String? ==> Decode(Encode(v).value) == v
  {
    if v.Date? {
      DateKeepsInstant(v.milliseconds);
    }
  }

  lemma IdComesBack(hex: Text)
    requires IsHex24(hex)
    ensures Back(Id(hex)) == Id(hex)
  {
    LowerKeepsHex(hex);
    var stored: map<Text, Stored> := map[OID := StoredStr(hex)];
    assert stored[OID] == StoredStr(hex);
    var decoded := DecodeFields(stored);
    assert decoded.Keys == {OID} && decoded[OID] == Decode(stored[OID]);
  }

  lemma {:induction false} LowerKeepsHex(hex: Text)
    requires forall u :: u in hex ==> IsLowerHex(u)
    ensures ObjectIds.Lower(hex) == hex
  {
    if hex != [] {
      assert hex[0] in hex;
      LowerKeepsHex(hex[1..]);
    }
  }

  /** A value comes back as it was written exactly when nothing in it is rebuilt as something else. */
  lemma {:induction false} ValueRoundTrip(v: Item)
    requires Storable(v) && ProperIds(v)
    ensures Encode(v).Some?
    ensures Back(v) == v <==> !Holds(v)
    decreases v, 1
  {
    EncodeDecides(v);
    match v
    case Id(hex) => IdComesBack(hex);
    case Date(ms) => DateKeepsInstant(ms);
    case List(items) => ListRoundTrip(items);
    case Doc(fields) =>
      if IsGeometry(v) {
        GeometryIsPlain(v);
      } else {
        DocRoundTrip(fields);
      }
    case Geometry(json) => assert json < v;
    case _ => LeafRoundTrip(v);
  }

  lemma LeafRoundTrip(v: Item)
    requires Encode(v).Some? && !v.Id? && !v.Date? && !v.List? && !v.Doc? && !v.Geometry?
    ensures Back(v) == v && !Holds(v)
  {
  }

  lemma {:induction false} ListRoundTrip(items: seq<Item>)
    requires Storable(List(items)) && ProperIds(List(items)) && Encode(List(items)).Some?
    ensures Back(List(items)) == List(items) <==> !Holds(List(items))
    decreases List(items), 0
  {
    var back := Back(List(items)).items;
    forall i | 0 <= i < |items|
      ensures back[i] == items[i] <==> !Holds(items[i])
    {
      ValueRoundTrip(items[i]);
    }
  }

  lemma {:induction false} DocRoundTrip(fields: Fields)
    requires !IsGeometry(Doc(fields)) && StorableFields(fields) && ProperFields(fields) && Encode(Doc(fields)).Some?
    ensures Back(Doc(fields)) == Doc(fields) <==> !Holds(Doc(fields))
    decreases Doc(fields), 0, 1
  {
    FieldsRoundTrip(fields);
    TaggedSeen(fields);
  }

  /** The same of a document's fields: the document itself may have any shape. */
  lemma {:induction false} FieldsRoundTrip(fields: Fields)
    requires StorableFields(fields) && ProperFields(fields)
    ensures EncodeFields(fields).Some?
    ensures FieldsBack(fields).Keys == fields.Keys
    ensures forall k :: k in fields ==> Encode(fields[k]).Some? && FieldsBack(fields)[k] == Back(fields[k])
    ensures FieldsBack(fields) == fields <==> !FieldsHold(fields)
    decreases Doc(fields), 0, 0
  {
    EncodeFieldsDecides(fields);
    var back := FieldsBack(fields);
    forall k | k in fields
      ensures back[k] == fields[k] <==> !Holds(fields[k])
    {
      ValueRoundTrip(fields[k]);
    }
  }

  /** Storing neither makes a document look like an id nor hides that it does. */
  lemma TaggedSeen(fields: Fields)
    requires EncodeFields(fields).Some?
    ensures IsTagged(Doc(DecodeFields(EncodeFields(fields).value))) <==> IsTagged(Doc(fields))
  {
    if fields.Keys == {OID} {
      TextStaysText(fields[OID]);
    }
  }

  // The walk that rebuilds ids.

  /** A value is its own rebuilt form exactly when nothing in it is rebuilt. */
  lemma {:induction false} ReviveLeaves(v: Item)
    ensures Revive(v) == v <==> !Holds(v)
    decreases v, 1
  {
    match v
    case List(items) =>
      var revived := if IsTagged(v) then [] else Revive(v).items;
      forall i | 0 <= i < |items|
        ensures revived[i] == items[i] <==> !Holds(items[i])
      {
        ReviveLeaves(items[i]);
      }
    case Doc(fields) => ReviveFieldsLeaves(fields);
    case Geometry(json) => assert json < v;
    case _ =>
  }

  lemma {:induction false} ReviveFieldsLeaves(fields: Fields)
    ensures ReviveFields(fields) == fields <==> !FieldsHold(fields)
    decreases Doc(fields), 0
  {
    var revived := ReviveFields(fields);
    forall k | k in fields
      ensures revived[k] == fields[k] <==> !Holds(fields[k])
    {
      ReviveLeaves(fields[k]);
    }
  }

  /** A value with nothing to rebuild is handed back as it is; only a changed one is copied. */
  method ReviveBsonValues(value: Item) returns (revived: Item, copied: bool)
    ensures revived == Revive(value)
    ensures copied <==> Holds(value)
    decreases value, 1
  {
    ReviveLeaves(value);
    var id := FromTagged(value);
    if id.Some? {
      return id.value, true;
    }
    if value.Geometry? {
      return value.json, true;
    }
    if value.List? {
      var elements: seq<Item> := [];
      copied := false;
      var i := 0;
      while i < |value.items|
        invariant 0 <= i <= |value.items| && |elements| == i
        invariant forall j :: 0 <= j < i ==> elements[j] == Revive(value.items[j])
        invariant !copied ==> elements == value.items[..i]
        invariant copied ==> exists x :: x in value.items && Holds(x)
      {
        var next, changed := ReviveBsonValues(value.items[i]);
        ReviveLeaves(value.items[i]);
        elements := elements + [next];
        copied := copied || changed;
        i := i + 1;
      }
      return if copied then List(elements) else value, copied;
    }
    if !value.Doc? {
      return value, false;
    }
    var fields;
    fields, copied := ReviveBsonDocument(value.fields);
    revived := if copied then Doc(fields) else value;
  }

  method ReviveBsonDocument(document: Fields) returns (revived: Fields, copied: bool)
    ensures revived == ReviveFields(document)
    ensures copied <==> FieldsHold(document)
    decreases Doc(document), 0
  {
    var rebuilt: Fields := map[];
    var todo := document.Keys;
    copied := false;
    while todo != {}
      invariant todo <= document.Keys && rebuilt.Keys == document.Keys - todo
      invariant forall k :: k in rebuilt ==> rebuilt[k] == Revive(document[k])
      invariant !copied ==> forall k :: k in rebuilt ==> rebuilt[k] == document[k]
      invariant copied ==> FieldsHold(document)
      decreases |todo|
    {
      var key :| key in todo;
      var next, changed := ReviveBsonValues(document[key]);
      ReviveLeaves(document[key]);
      rebuilt := rebuilt[key := next];
      todo := todo - {key};
      copied := copied || changed;
    }
    ReviveFieldsLeaves(document);
    assert rebuilt == ReviveFields(document);
    revived := if copied then rebuilt else document;
  }

  // Ids and record ids.

  datatype InsertError = NotWhole | GeometryDocument

  /** What a caller may hand over as an `_id`; a number is none when it is not finite. */
  datatype IdInput =
    | GivenRecordId(record: RecordId)
    | GivenObjectId(hex: Text)
    | GivenText(text: Text)
    | GivenNumber(number: Option<real>)
    | GivenValue(value: Item)

  predicate IsWhole(n: Option<real>) {
    n.Some? && n.value.Floor as real == n.value
  }

  /** The record an `_id` addresses, none when it addresses none; a fraction is refused. */
  function ToRecordId(table: Text, id: IdInput): Result<Option<RecordId>, InsertError> {
    match id
    case GivenRecordId(record) => Success(Some(record))
    case GivenObjectId(hex) => Success(Some(RecordId(table, ValuePart(TaggedForm(hex)))))
    case GivenText(text) => Success(Some(RecordId(table, TextPart(text))))
    case GivenNumber(n) => if IsWhole(n) then Success(Some(RecordId(table, WholePart(n.value.Floor)))) else Failure(NotWhole)
    case GivenValue(v) =>
      if IsTagged(v) then Success(Some(RecordId(table, ValuePart(TaggedForm(FromTagged(v).value.hex))))) else Success(None)
  }

  /** The `_id` a record is read back under; `render` is how other id parts are spelled. */
  function RecordIdToMongoId(record: RecordId, render: Item -> Text): MongoId {
    match record.part
    case WholePart(n) => NumberId(n)
    case TextPart(text) => TextId(text)
    case ValuePart(v) => if IsTagged(v) then ObjectIdHex(FromTagged(v).value.hex) else TextId(render(v))
  }

  /** The `_id` an input stands for, when it is one the driver's types hold. */
  function Meant(id: IdInput): Option<MongoId> {
    match id
    case GivenObjectId(hex) => if |hex| == 24 && ObjectIds.IsHex(hex) then Some(ObjectIdHex(ObjectIds.Lower(hex))) else None
    case GivenText(text) => Some(TextId(text))
    case GivenNumber(n) => if IsWhole(n) then Some(NumberId(n.value.Floor)) else None
    case GivenValue(v) => if IsTagged(v) then Some(ObjectIdHex(FromTagged(v).value.hex)) else None
    case GivenRecordId(_) => None
  }

  lemma {:induction false} LowerIsHex(hex: Text)
    requires ObjectIds.IsHex(hex)
    ensures |ObjectIds.Lower(hex)| == |hex| && forall u :: u in ObjectIds.Lower(hex) ==> IsLowerHex(u)
  {
    if hex != [] {
      assert hex[0] in hex;
      LowerIsHex(hex[1..]);
    }
  }

  /** An id addresses a record whose `_id` reads back as that id. */
  lemma IdRoundTrip(table: Text, id: IdInput, render: Item -> Text)
    requires Meant(id).Some?
    ensures var r := ToRecordId(table, id);
            r.Success? && r.value.Some? && r.value.value.table == table && RecordIdToMongoId(r.value.value, render) == Meant(id).value
  {
    match id
    case GivenObjectId(hex) =>
      LowerIsHex(hex);
    case GivenValue(v) =>
      LowerKeepsHex(FromTagged(v).value.hex);
    case _ =>
  }

  /** Two ids address the same record exactly when table and id are the same. */
  lemma RecordIdsDiffer(t: Text, a: IdInput, u: Text, b: IdInput)
    requires Meant(a).Some? && Meant(b).Some?
    ensures ToRecordId(t, a) == ToRecordId(u, b) <==> t == u && Meant(a) == Meant(b)
  {
    var render: Item -> Text := v => [];
    IdRoundTrip(t, a, render);
    IdRoundTrip(u, b, render);
    if a.GivenValue? {
      LowerKeepsHex(FromTagged(a.value).value.hex);
    }
    if b.GivenValue? {
      LowerKeepsHex(FromTagged(b.value).value.hex);
    }
  }

  // Inserting a document and reading it back.

  /** `_id`. */
  const UNDERSCORE_ID: Text := [95, 105, 100]

  /** `id`, the column a record's identity is kept in. */
  const ID: Text := [105, 100]

  function InputOf(v: Item): IdInput {
    match v
    case Id(hex) => GivenObjectId(hex)
    case String(text) => GivenText(text)
    case Number(n) => GivenNumber(Some(n))
    case NaN => GivenNumber(None)
    case Infinity(_) => GivenNumber(None)
    case Record(record) => GivenRecordId(record)
    case _ => GivenValue(v)
  }

  function ItemOf(id: MongoId): Item {
    match id
    case TextId(text) => String(text)
    case NumberId(n) => Number(n as real)
    case ObjectIdHex(hex) => Id(hex)
  }

  datatype Prepared = Prepared(record: RecordId, data: Fields, insertedId: Item)

  /** A document's `_id`, a missing one being as good as null. */
  function IdOf(document: Fields): Item {
    if UNDERSCORE_ID in document then document[UNDERSCORE_ID] else Nil
  }

  /** Splits a document into the record its `_id` addresses and the rest, an absent one generated. */
  function PrepareInsert(table: Text, document: Fields, generated: Text, render: Item -> Text): Result<Prepared, InsertError> {
    var id, rest := IdOf(document), document - {UNDERSCORE_ID};
    if IsGeometry(Doc(rest)) then Failure(GeometryDocument)
    else if id.Nil? then Success(Prepared(RecordId(table, ValuePart(TaggedForm(generated))), rest, Id(generated))) else
    var supplied := if IsTagged(id) then FromTagged(id).value else id;
    var record :- ToRecordId(table, InputOf(supplied));
    Success(
      if record.Some? then Prepared(record.value, rest, supplied)
      else Prepared(RecordId(table, TextPart(render(id))), rest, String(render(id))))
  }

  /** The record stored: the data, its `id` column set to the record's identity. */
  function Content(p: Prepared): Fields {
    p.data[ID := Record(p.record)]
  }

  /** The `_id` for what the `id` column holds. */
  function ToMongoId(v: Item, render: Item -> Text): Item {
    if v.Record? then ItemOf(RecordIdToMongoId(v.record, render)) else v
  }

  /** The document a record reads as: its `id` column taken out, ids rebuilt in the others. */
  function RecordToDocument(record: Fields, render: Item -> Text): Fields {
    var rest := ReviveFields(record - {ID});
    if ID !in record then rest else map[UNDERSCORE_ID := ToMongoId(record[ID], render)] + rest
  }

  /** The record of `p`, stored, decoded and read. */
  function ReadBack(p: Prepared, render: Item -> Text): Fields
    requires EncodeFields(Content(p)).Some?
  {
    RecordToDocument(DecodeFields(EncodeFields(Content(p)).value), render)
  }

  /** The document a caller expects back: what was inserted, under the `_id` reported for it. */
  function Expected(p: Prepared, document: Fields): Fields {
    document[UNDERSCORE_ID := p.insertedId]
  }

  /** Every field whose value reaches the server can be stored; `_id` and `id` do not. */
  predicate StorableDocument(document: Fields) {
    forall k :: k in document && k != UNDERSCORE_ID && k != ID ==> Storable(document[k])
  }

  lemma ContentStorable(p: Prepared, document: Fields)
    requires p.data == document - {UNDERSCORE_ID} && StorableDocument(document) && ProperFields(document)
    ensures StorableFields(Content(p)) && ProperFields(Content(p))
  {
  }

  lemma RecordReads(record: Fields, render: Item -> Text)
    requires ID in record && UNDERSCORE_ID !in record
    ensures RecordToDocument(record, render).Keys == record.Keys - {ID} + {UNDERSCORE_ID}
    ensures RecordToDocument(record, render)[UNDERSCORE_ID] == ToMongoId(record[ID], render)
    ensures forall k :: k in record && k != ID ==> RecordToDocument(record, render)[k] == Revive(record[k])
  {
    var rest := ReviveFields(record - {ID});
    assert rest.Keys == record.Keys - {ID};
  }

  lemma {:induction false} FieldsDecoded(fields: Fields)
    requires EncodeFields(fields).Some?
    ensures DecodeFields(EncodeFields(fields).value).Keys == fields.Keys
    ensures forall k :: k in fields ==> Encode(fields[k]).Some? && DecodeFields(EncodeFields(fields).value)[k] == Decode(Encode(fields[k]).value)
  {
  }

  /** What is stored for an insert, as it decodes. */
  lemma StoredRow(p: Prepared, document: Fields) returns (row: Fields)
    requires p.data == document - {UNDERSCORE_ID} && StorableDocument(document) && ProperFields(document)
    ensures EncodeFields(Content(p)).Some? && row == DecodeFields(EncodeFields(Content(p)).value)
    ensures row.Keys == document.Keys - {UNDERSCORE_ID} + {ID} && row[ID] == Record(p.record)
    ensures forall k :: k in document && k != UNDERSCORE_ID && k != ID ==>
                          Encode(document[k]).Some? && row[k] == Decode(Encode(document[k]).value)
  {
    var content := Content(p);
    ContentStorable(p, document);
    EncodeFieldsDecides(content);
    FieldsDecoded(content);
    row := DecodeFields(EncodeFields(content).value);
    assert content[ID] == Record(p.record);
    forall k | k in document && k != UNDERSCORE_ID && k != ID
      ensures Encode(document[k]).Some? && row[k] == Decode(Encode(document[k]).value)
    {
      assert k in content && content[k] == document[k];
    }
  }

  /** What a read gives: the `_id` the record's identity stands for, then the other fields rebuilt. */
  lemma ReadBackFields(p: Prepared, document: Fields, render: Item -> Text)
    requires p.data == document - {UNDERSCORE_ID} && StorableDocument(document) && ProperFields(document)
    ensures EncodeFields(Content(p)).Some?
    ensures ReadBack(p, render).Keys == document.Keys - {ID} + {UNDERSCORE_ID}
    ensures ReadBack(p, render)[UNDERSCORE_ID] == ItemOf(RecordIdToMongoId(p.record, render))
    ensures forall k :: k in document && k != UNDERSCORE_ID && k != ID ==>
                          Encode(document[k]).Some? && ReadBack(p, render)[k] == Back(document[k])
  {
    var row := StoredRow(p, document);
    ReadBackKeys(row, document, render);
    forall k | k in document && k != UNDERSCORE_ID && k != ID
      ensures Encode(document[k]).Some? && ReadBack(p, render)[k] == Back(document[k])
    {
      ReadBackField(row, k, render);
    }
  }

  lemma ReadBackKeys(row: Fields, document: Fields, render: Item -> Text)
    requires row.Keys == document.Keys - {UNDERSCORE_ID} + {ID}
    ensures RecordToDocument(row, render).Keys == document.Keys - {ID} + {UNDERSCORE_ID}
    ensures RecordToDocument(row, render)[UNDERSCORE_ID] == ToMongoId(row[ID], render)
  {
    IdNamesDiffer();
    RecordReads(row, render);
  }

  lemma ReadBackField(row: Fields, k: Text, render: Item -> Text)
    requires k in row && k != ID && ID in row && UNDERSCORE_ID !in row
    ensures k in RecordToDocument(row, render) && RecordToDocument(row, render)[k] == Revive(row[k])
  {
    RecordReads(row, render);
  }

  lemma IdNamesDiffer()
    ensures UNDERSCORE_ID != ID
  {
    assert |UNDERSCORE_ID| == 3;
  }

  lemma SameDocument(back: Fields, document: Fields, id: Item)
    requires back.Keys == document.Keys - {ID} + {UNDERSCORE_ID}
    ensures back == document[UNDERSCORE_ID := id] <==>
            && ID !in document && back[UNDERSCORE_ID] == id
            && forall k :: k in document && k != UNDERSCORE_ID ==> back[k] == document[k]
  {
    var expected := document[UNDERSCORE_ID := id];
    IdNamesDiffer();
    assert ID in document ==> ID in expected && ID !in back;
    if ID !in document {
      assert back.Keys == expected.Keys;
      assert back == expected <==> forall k :: k in expected ==> back[k] == expected[k];
    }
  }

  /**
   * Reading an inserted document back gives the document under the `_id` reported for
   * it exactly when it has no field of its own named `id`, no field holding something
   * the read rebuilds, and an `_id` that is not already a record id.
   */
  lemma InsertReadsBack(table: Text, document: Fields, generated: Text, render: Item -> Text)
    requires IsHex24(generated) && StorableDocument(document) && ProperFields(document)
    requires PrepareInsert(table, document, generated, render).Success?
    ensures var p := PrepareInsert(table, document, generated, render).value;
            && EncodeFields(Content(p)).Some?
            && (ReadBack(p, render) == Expected(p, document)
                <==> ID !in document && !IdOf(document).Record? && !FieldsHold(document - {UNDERSCORE_ID}))
  {
    var p := PrepareInsert(table, document, generated, render).value;
    InsertedIdReadsBack(table, document, generated, render);
    ReadBackFields(p, document, render);
    SameDocument(ReadBack(p, render), document, p.insertedId);
    if ID !in document {
      FieldsSurvive(document);
    }
  }

  lemma FieldsSurvive(document: Fields)
    requires ID !in document && StorableDocument(document) && ProperFields(document)
    ensures forall k :: k in document && k != UNDERSCORE_ID ==> Encode(document[k]).Some?
    ensures (forall k :: k in document && k != UNDERSCORE_ID ==> Back(document[k]) == document[k])
       <==> !FieldsHold(document - {UNDERSCORE_ID})
  {
    var rest := document - {UNDERSCORE_ID};
    forall k | k in document && k != UNDERSCORE_ID
      ensures Encode(document[k]).Some? && (Back(document[k]) == document[k] <==> !Holds(rest[k]))
    {
      ValueRoundTrip(document[k]);
    }
    assert forall k :: k in rest <==> k in document && k != UNDERSCORE_ID;
  }

  /** The record addressed reads back under the reported `_id`, unless a record id was given. */
  lemma InsertedIdReadsBack(table: Text, document: Fields, generated: Text, render: Item -> Text)
    requires IsHex24(generated) && ProperFields(document)
    requires PrepareInsert(table, document, generated, render).Success?
    ensures var p, id := PrepareInsert(table, document, generated, render).value, IdOf(document);
            && p.data == document - {UNDERSCORE_ID}
            && (ItemOf(RecordIdToMongoId(p.record, render)) == p.insertedId <==> !id.Record?)
            && (id.String? || id.Id? || id.Number? ==> p.insertedId == id)
  {
    var id := IdOf(document);
    LowerKeepsHex(generated);
    if !id.Nil? {
      var supplied := if IsTagged(id) then FromTagged(id).value else id;
      if supplied.Id? {
        LowerKeepsHex(supplied.hex);
      }
    }
  }

  /** A caller's own field named `id` never comes back, whatever it holds. */
  lemma IdFieldIsLost(table: Text, document: Fields, generated: Text, render: Item -> Text)
    requires ID in document && StorableDocument(document) && ProperFields(document)
    requires PrepareInsert(table, document, generated, render).Success?
    ensures var p := PrepareInsert(table, document, generated, render).value;
            EncodeFields(Content(p)).Some? && ID !in ReadBack(p, render)
  {
    ReadBackFields(PrepareInsert(table, document, generated, render).value, document, render);
  }

  /** For instance `{_id: a, id: b}` reads back as `{_id: a}`, for any two texts. */
  lemma TextIdFieldIsLost(table: Text, a: Text, b: Text, generated: Text, render: Item -> Text)
    ensures var document: Fields := map[UNDERSCORE_ID := String(a), ID := String(b)];
            var prepared := PrepareInsert(table, document, generated, render);
            && prepared.Success? && EncodeFields(Content(prepared.value)).Some?
            && ReadBack(prepared.value, render) == map[UNDERSCORE_ID := String(a)]
  {
    var document: Fields := map[UNDERSCORE_ID := String(a), ID := String(b)];
    assert |TYPE| == 4 && |ID| == 2;
    assert TYPE !in (document - {UNDERSCORE_ID});
    ReadBackFields(PrepareInsert(table, document, generated, render).value, document, render);
  }

  /** Inserting is refused exactly for a geometry as the document, or an `_id` that is a number and not whole. */
  lemma InsertRefuses(table: Text, document: Fields, generated: Text, render: Item -> Text)
    ensures var id, prepared := IdOf(document), PrepareInsert(table, document, generated, render);
            && (prepared == Failure(GeometryDocument) <==> IsGeometry(Doc(document - {UNDERSCORE_ID})))
            && (prepared.Failure? <==>
                IsGeometry(Doc(document - {UNDERSCORE_ID})) || id.NaN? || id.Infinity? || (id.Number? && !IsWhole(Some(id.number))))
  {
  }
}
