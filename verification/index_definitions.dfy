/**
 * Index requests, the physical indexes that implement them and the descriptions
 * read back from those.
 */
module IndexDefinitions {
  import opened Values
  import opened Identifiers
  import opened IndexNames

  type Key = seq<KeyEntry>

  /** `_id`, `id`, `_id_`, `text` and `$**`. */
  const ID_FIELD: Text := [95, 105, 100]
  const ID_COLUMN: Text := [105, 100]
  const ID_INDEX_NAME: Text := [95, 105, 100, 95]
  const TEXT_KIND: Text := [116, 101, 120, 116]
  const WILDCARD: Text := [36, 42, 42]

  const TEXT := Special(TEXT_KIND)

  // Keys.

  predicate HasField(key: Key, field: Text) {
    exists e :: e in key && e.field == field
  }

  predicate DistinctFields(key: Key) {
    forall i, j :: 0 <= i < j < |key| ==> key[i].field != key[j].field
  }

  /** `key` with `entry`'s direction in place of the one it has for that field. */
  function Replace(key: Key, entry: KeyEntry): (r: Key)
    ensures |r| == |key|
    ensures forall i :: 0 <= i < |key| ==> r[i] == if key[i].field == entry.field then entry else key[i]
  {
    if key == [] then [] else [if key[0].field == entry.field then entry else key[0]] + Replace(key[1..], entry)
  }

  /** The ordered key a caller's entries fold into: a repeated field keeps its place. */
  function ResolveKey(entries: seq<KeyEntry>): (key: Key)
    ensures DistinctFields(key)
  {
    if entries == [] then [] else
    var key, last := ResolveKey(entries[..|entries| - 1]), entries[|entries| - 1];
    if HasField(key, last.field) then Replace(key, last) else key + [last]
  }

  /** A field name a plain object would order as an array index. */
  predicate IntegerLike(field: Text) {
    field != [] && AllDigits(field) && (field[0] != ZERO || |field| == 1) && Magnitude(field) < 4294967295
  }

  /** Whether an object lists `a` before the field `b` added after it. */
  predicate ListsFirst(a: Text, b: Text) {
    !IntegerLike(b) || (IntegerLike(a) && Magnitude(a) < Magnitude(b))
  }

  /** Sets a field of an object that lists array indexes first, in ascending order. */
  function SetField(record: Key, entry: KeyEntry): Key {
    if HasField(record, entry.field) then Replace(record, entry) else Insert(record, entry)
  }

  function Insert(record: Key, entry: KeyEntry): Key {
    if record == [] then [entry]
    else if ListsFirst(record[0].field, entry.field) then [record[0]] + Insert(record[1..], entry)
    else [entry] + record
  }

  /** `entries` assigned one after another onto an object. */
  function Assign(record: Key, entries: Key): Key
    decreases entries
  {
    if entries == [] then record else Assign(SetField(record, entries[0]), entries[1..])
  }

  /** The plain object of a key, in the order its fields are listed. */
  function KeyObject(key: Key): Key {
    Assign([], key)
  }

  /** Array indexes come first and ascend. */
  predicate InObjectOrder(key: Key) {
    forall i, j :: 0 <= i < j < |key| ==> ListsFirst(key[i].field, key[j].field)
  }

  // Requests.

  datatype Definition = Definition(
    name: Text, key: Key, fullText: bool, columns: seq<Text>, unique: bool, sparse: bool, comment: Option<Text>)

  datatype IndexError =
    | EmptyKey | BadIdKey | Unindexable | Unsupported | MixedKinds | ReservedName
    | NameTaken | KeyTaken | PhysicalNameTaken | NotStored | CannotDropId | NotFound

  function ColumnOf(field: Text): Text {
    if field == ID_FIELD then ID_COLUMN else field
  }

  function Columns(key: Key): (columns: seq<Text>)
    ensures |columns| == |key|
    ensures forall i :: 0 <= i < |key| ==> columns[i] == ColumnOf(key[i].field)
  {
    seq(|key|, i requires 0 <= i < |key| => ColumnOf(key[i].field))
  }

  predicate IsIdIndexKey(key: Key) {
    key == [KeyEntry(ID_FIELD, Ascending)]
  }

  predicate Contains(text: Text, part: Text) {
    part <= text || (text != [] && Contains(text[1..], part))
  }

  /** A named field and a direction the server can serve. */
  predicate Servable(entry: KeyEntry) {
    !Contains(entry.field, WILDCARD) && (entry.direction == TEXT || !entry.direction.Special?)
  }

  /** A request checked before anything is sent; `indexable` tells which columns can be indexed at all. */
  function Resolve(entries: seq<KeyEntry>, name: Option<Text>, unique: bool, sparse: bool, comment: Option<Text>,
                   indexable: Text -> bool): Result<Definition, IndexError> {
    var key := ResolveKey(entries);
    if key == [] then Failure(EmptyKey)
    else if |key| == 1 && key[0].field == ID_FIELD && key[0].direction != Ascending then Failure(BadIdKey)
    else if exists e :: e in key && !indexable(e.field) then Failure(Unindexable)
    else if exists e :: e in key && !Servable(e) then Failure(Unsupported)
    else if (exists e :: e in key && e.direction == TEXT) && (exists e :: e in key && e.direction != TEXT) then Failure(MixedKinds)
    else if name == Some(ID_INDEX_NAME) && !IsIdIndexKey(key) then Failure(ReservedName)
    else Success(Definition(if name.Some? then name.value else GenerateIndexName(key), key, key[0].direction == TEXT,
                            Columns(key), unique, sparse, comment))
  }

  /** What every request that passes satisfies. */
  predicate Valid(d: Definition) {
    && d.key != [] && DistinctFields(d.key) && d.columns == Columns(d.key)
    && (d.fullText ==> forall e :: e in d.key ==> e.direction == TEXT)
    && (!d.fullText ==> forall e :: e in d.key ==> !e.direction.Special?)
    && (d.name == ID_INDEX_NAME ==> IsIdIndexKey(d.key))
  }

  // Physical indexes.

  datatype Metadata = Metadata(name: Text, key: Key, unique: bool, sparse: bool, comment: Option<Text>)

  datatype Comment = Written(metadata: Metadata) | Foreign(text: Text)

  datatype Clause = Ordinary | Unique | FullText

  datatype Physical = Physical(name: Text, columns: seq<Text>, clause: Clause, comment: Option<Comment>)

  function MetadataOf(d: Definition): Metadata {
    Metadata(d.name, KeyObject(d.key), d.unique, d.sparse, d.comment)
  }

  /** A definition of several text columns needs a name for each of them. */
  function PhysicalName(d: Definition, column: Text): Text {
    if d.fullText && |d.columns| > 1 then d.name + ([UNDERSCORE] + column) else d.name
  }

  /** The physical indexes of a definition: one for each text column, else one for all. */
  function BuildStatements(d: Definition): seq<Physical> {
    var comment := Some(Written(MetadataOf(d)));
    if d.fullText
    then seq(|d.columns|, i requires 0 <= i < |d.columns| => Physical(PhysicalName(d, d.columns[i]), [d.columns[i]], FullText, comment))
    else [Physical(d.name, d.columns, if d.unique then Unique else Ordinary, comment)]
  }

  // Descriptions.

  datatype Description = Description(name: Text, key: Key, unique: bool, sparse: bool, comment: Option<Text>)

  const ID_DESCRIPTION := Description(ID_INDEX_NAME, [KeyEntry(ID_FIELD, Ascending)], false, false, None)

  function InferEntries(columns: seq<Text>, d: Direction): Key {
    seq(|columns|, i requires 0 <= i < |columns| => KeyEntry(if columns[i] == ID_COLUMN then ID_FIELD else columns[i], d))
  }

  /** What is reported of one physical index: its metadata, else what it shows of itself. */
  function DescribeOne(p: Physical): Description {
    var key := KeyObject(InferEntries(p.columns, if p.clause.FullText? then TEXT else Ascending));
    match p.comment
    case None => Description(p.name, key, p.clause.Unique?, false, None)
    case Some(comment) =>
      match comment
      case Written(m) => Description(m.name, m.key, m.unique, m.sparse, m.comment)
      case Foreign(text) => Description(p.name, key, p.clause.Unique?, false, Some(text))
  }

  function Find(descriptions: seq<Description>, name: Text): (r: Option<nat>)
    ensures r.Some? ==> r.value < |descriptions| && descriptions[r.value].name == name
    ensures r.None? ==> forall d :: d in descriptions ==> d.name != name
  {
    if descriptions == [] then None
    else if descriptions[0].name == name then Some(0)
    else
      var i :- Find(descriptions[1..], name);
      Some(i + 1)
  }

  /** Adds a description, or its fields to the one already there under its name. */
  function AddDescription(descriptions: seq<Description>, d: Description): seq<Description> {
    if d.name == ID_INDEX_NAME then descriptions else
    var i := Find(descriptions, d.name);
    if i.None? then descriptions + [d]
    else descriptions[i.value := descriptions[i.value].(key := Assign(descriptions[i.value].key, d.key))]
  }

  function Describe(infos: seq<Physical>): seq<Description> {
    if infos == [] then [ID_DESCRIPTION] else AddDescription(Describe(infos[..|infos| - 1]), DescribeOne(infos[|infos| - 1]))
  }

  function Tag(p: Physical): Text {
    DescribeOne(p).name
  }

  /** The loop over what the server reports: descriptions, and the MongoDB name behind each index. */
  method DescribeIndexes(infos: seq<Physical>) returns (descriptions: seq<Description>, tags: seq<Text>)
    ensures descriptions == Describe(infos)
    ensures |tags| == |infos| && forall i :: 0 <= i < |infos| ==> tags[i] == Tag(infos[i])
  {
    descriptions, tags := [ID_DESCRIPTION], [];
    for i := 0 to |infos|
      invariant descriptions == Describe(infos[..i])
      invariant |tags| == i && forall j :: 0 <= j < i ==> tags[j] == Tag(infos[j])
    {
      assert infos[..i + 1][..i] == infos[..i];
      tags := tags + [Tag(infos[i])];
      descriptions := Report(descriptions, DescribeOne(infos[i]));
    }
    assert infos[..|infos|] == infos;
  }

  method Report(descriptions: seq<Description>, d: Description) returns (reported: seq<Description>)
    ensures reported == AddDescription(descriptions, d)
  {
    if d.name == ID_INDEX_NAME {
      return descriptions;
    }
    var existing := Find(descriptions, d.name);
    if existing.Some? {
      var merged := Assign(descriptions[existing.value].key, d.key);
      return descriptions[existing.value := descriptions[existing.value].(key := merged)];
    }
    reported := descriptions + [d];
  }

  // What a resolved request satisfies.

  lemma ResolveValidates(entries: seq<KeyEntry>, name: Option<Text>, unique: bool, sparse: bool, comment: Option<Text>,
                         indexable: Text -> bool)
    requires Resolve(entries, name, unique, sparse, comment, indexable).Success?
    ensures Valid(Resolve(entries, name, unique, sparse, comment, indexable).value)
  {
    var d := Resolve(entries, name, unique, sparse, comment, indexable).value;
    assert d.key[0] in d.key;
    forall e | e in d.key
      ensures Servable(e) && (d.fullText <==> e.direction == TEXT)
    {
    }
    if name.None? && d.name == ID_INDEX_NAME {
      GeneratedNameEnds(d.key);
    }
  }

  /** A generated name ends like its last direction, never in an underscore. */
  lemma {:induction false} GeneratedNameEnds(key: Key)
    requires key != [] && forall e :: e in key ==> Servable(e)
    ensures var name := GenerateIndexName(key); name != [] && name[|name| - 1] != UNDERSCORE
  {
    if |key| == 1 {
      assert key[0] in key;
      var direction := DirectionText(key[0].direction);
      assert EntryText(key[0])[|EntryText(key[0])| - 1] == direction[|direction| - 1];
    } else {
      GeneratedNameEnds(key[1..]);
      var rest := GenerateIndexName(key[1..]);
      assert GenerateIndexName(key)[|GenerateIndexName(key)| - 1] == rest[|rest| - 1];
    }
  }

  // Objects and their order.

  lemma {:induction false} ReplaceSame(record: Key, entry: KeyEntry)
    requires DistinctFields(record) && entry in record
    ensures Replace(record, entry) == record
  {
    var r := Replace(record, entry);
    var k :| 0 <= k < |record| && record[k] == entry;
    assert forall i :: 0 <= i < |record| ==> (record[i].field == entry.field ==> i == k);
  }

  /** Assigning an object its own fields changes nothing. */
  lemma {:induction false} AssignSame(record: Key, entries: Key)
    requires DistinctFields(record) && forall e :: e in entries ==> e in record
    ensures Assign(record, entries) == record
    decreases entries
  {
    if entries != [] {
      assert entries[0] in record;
      ReplaceSame(record, entries[0]);
      AssignSame(record, entries[1..]);
    }
  }

  predicate Canonical(digits: Text) {
    digits != [] && AllDigits(digits) && (digits[0] != ZERO || |digits| == 1)
  }

  /** A number has one spelling without leading zeros. */
  lemma {:induction false} CanonicalDigits(digits: Text)
    requires Canonical(digits)
    ensures Digits(Magnitude(digits)) == digits
  {
    var last := digits[|digits| - 1];
    assert last in digits && IsDigit(digits[0]) by { assert digits[0] in digits; }
    var front := digits[..|digits| - 1];
    if front != [] {
      assert Canonical(front);
      CanonicalDigits(front);
      CanonicalPositive(front);
      assert Magnitude(digits) / 10 == Magnitude(front) && Magnitude(digits) % 10 == last - 48;
      assert front + [last] == digits;
    } else {
      assert digits == [last];
    }
  }

  lemma {:induction false} CanonicalPositive(digits: Text)
    requires Canonical(digits) && digits[0] != ZERO
    ensures Magnitude(digits) > 0
  {
    assert digits[0] in digits && digits[|digits| - 1] in digits;
    var front := digits[..|digits| - 1];
    if front != [] {
      assert Canonical(front);
      CanonicalPositive(front);
    } else {
      assert digits == [digits[0]];
    }
  }

  /** Of two fields one is listed first, or they are both names and keep the order they were added in. */
  lemma NotListedFirst(a: Text, b: Text)
    requires a != b && !ListsFirst(a, b)
    ensures IntegerLike(b) && ListsFirst(b, a)
  {
    if IntegerLike(a) && Magnitude(a) == Magnitude(b) {
      CanonicalDigits(a);
      CanonicalDigits(b);
    }
  }

  predicate FirstOf(first: KeyEntry, rest: Key) {
    forall e :: e in rest ==> ListsFirst(first.field, e.field) && e.field != first.field
  }

  lemma FirstThenRest(first: KeyEntry, rest: Key)
    requires FirstOf(first, rest) && InObjectOrder(rest) && DistinctFields(rest)
    ensures InObjectOrder([first] + rest) && DistinctFields([first] + rest)
  {
    assert forall i :: 0 <= i < |rest| ==> rest[i] in rest;
  }

  lemma SplitFirst(record: Key)
    requires record != [] && InObjectOrder(record) && DistinctFields(record)
    ensures FirstOf(record[0], record[1..]) && InObjectOrder(record[1..]) && DistinctFields(record[1..])
  {
  }

  /** Inserting a new field keeps the object's order and fields distinct. */
  lemma {:induction false} InsertKeeps(record: Key, entry: KeyEntry)
    requires InObjectOrder(record) && DistinctFields(record) && !HasField(record, entry.field)
    ensures var r := Insert(record, entry);
            InObjectOrder(r) && DistinctFields(r) && forall e :: e in r <==> e in record || e == entry
  {
    if record != [] {
      var first, rest := record[0], record[1..];
      assert first in record && forall e :: e in record <==> e == first || e in rest;
      SplitFirst(record);
      if ListsFirst(first.field, entry.field) {
        InsertKeeps(rest, entry);
        FirstThenRest(first, Insert(rest, entry));
      } else {
        NotListedFirst(first.field, entry.field);
        assert FirstOf(entry, record);
        FirstThenRest(entry, record);
      }
    }
  }

  lemma {:induction false} AssignKeeps(record: Key, entries: Key)
    requires InObjectOrder(record) && DistinctFields(record)
    requires forall i, j :: 0 <= i < j < |entries| ==> entries[i].field != entries[j].field
    requires forall e :: e in entries ==> !HasField(record, e.field)
    ensures var r := Assign(record, entries);
            InObjectOrder(r) && DistinctFields(r) && forall e :: e in r <==> e in record || e in entries
    decreases entries
  {
    if entries != [] {
      assert entries[0] in entries;
      InsertKeeps(record, entries[0]);
      AssignKeeps(SetField(record, entries[0]), entries[1..]);
      assert forall e :: e in entries <==> e == entries[0] || e in entries[1..];
    }
  }

  /** The object of a key holds its entries, each field once, array indexes first. */
  lemma KeyObjectKeeps(key: Key)
    requires DistinctFields(key)
    ensures InObjectOrder(KeyObject(key)) && DistinctFields(KeyObject(key))
    ensures forall e :: e in KeyObject(key) <==> e in key
  {
    AssignKeeps([], key);
  }

  /** A field added to an object that lists every field before it goes last. */
  lemma {:induction false} InsertLast(record: Key, entry: KeyEntry)
    requires forall e :: e in record ==> ListsFirst(e.field, entry.field)
    ensures Insert(record, entry) == record + [entry]
  {
    if record != [] {
      assert record[0] in record;
      InsertLast(record[1..], entry);
      assert [record[0]] + (record[1..] + [entry]) == record + [entry];
    }
  }

  lemma {:induction false} AssignInOrder(record: Key, entries: Key)
    requires InObjectOrder(record + entries) && DistinctFields(record + entries)
    ensures Assign(record, entries) == record + entries
    decreases entries
  {
    if entries == [] {
      assert record + entries == record;
    } else {
      var all := record + entries;
      assert all[|record|] == entries[0];
      forall e | e in record
        ensures ListsFirst(e.field, entries[0].field) && e.field != entries[0].field
      {
        var i :| 0 <= i < |record| && record[i] == e;
        assert all[i] == e;
      }
      InsertLast(record, entries[0]);
      assert record + [entries[0]] + entries[1..] == all;
      AssignInOrder(record + [entries[0]], entries[1..]);
    }
  }

  /** Going through an object keeps a key's order exactly when it lists array indexes first. */
  lemma ObjectKeepsOrder(key: Key)
    requires DistinctFields(key)
    ensures KeyObject(key) == key <==> InObjectOrder(key)
  {
    KeyObjectKeeps(key);
    if InObjectOrder(key) {
      assert [] + key == key;
      AssignInOrder([], key);
    }
  }
}
