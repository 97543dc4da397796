/**
 * Creating, re-creating and dropping indexes against the server's index set.
 *
 * The server keeps what it is given in order, refuses a name already taken and any
 * definition it could not read back (`accepts`), and stores nothing it refuses.
 */
module IndexLifecycle {
  import opened Values
  import opened Identifiers
  import opened IndexNames
  import opened IndexDefinitions

  type Table = seq<Physical>

  // What the operations do to the server's indexes.

  predicate IsEquivalent(existing: Description, d: Definition) {
    existing.key == KeyObject(d.key) && existing.unique == d.unique && existing.sparse == d.sparse
  }

  predicate Occupied(table: Table, name: Text) {
    exists p :: p in table && p.name == name
  }

  /** The statements in turn until one is refused; whether all were stored, and the table then. */
  function DefineAll(table: Table, statements: seq<Physical>, accepts: Physical -> bool): (bool, Table)
    decreases statements
  {
    if statements == [] then (true, table)
    else if Occupied(table, statements[0].name) || !accepts(statements[0]) then (false, table)
    else DefineAll(table + [statements[0]], statements[1..], accepts)
  }

  predicate KeyClash(descriptions: seq<Description>, d: Definition) {
    exists e :: e in descriptions && e.name != ID_INDEX_NAME && IsEquivalent(e, d)
  }

  predicate PhysicalClash(table: Table, d: Definition) {
    exists p :: p in BuildStatements(d) && Occupied(table, p.name)
  }

  function Define(table: Table, d: Definition, accepts: Physical -> bool): (Result<Text, IndexError>, Table) {
    if IsIdIndexKey(d.key) then (Success(d.name), table) else
    var descriptions := Describe(table);
    var same := Find(descriptions, d.name);
    if same.Some? then (if IsEquivalent(descriptions[same.value], d) then Success(d.name) else Failure(NameTaken), table)
    else if KeyClash(descriptions, d) then (Failure(KeyTaken), table)
    else if PhysicalClash(table, d) then (Failure(PhysicalNameTaken), table)
    else
      var (stored, after) := DefineAll(table, BuildStatements(d), accepts);
      (if stored then Success(d.name) else Failure(NotStored), after)
  }

  /** The indexes of another MongoDB name than `name`. */
  function Without(table: Table, name: Text): Table {
    if table == [] then [] else
    var last := table[|table| - 1];
    Without(table[..|table| - 1], name) + (if Tag(last) == name then [] else [last])
  }

  /** Drops by MongoDB name; answers how many indexes there were. */
  function Drop(table: Table, name: Text): (Result<nat, IndexError>, Table) {
    if name == ID_INDEX_NAME then (Failure(CannotDropId), table)
    else if forall p :: p in table ==> Tag(p) != name then (Failure(NotFound), table)
    else (Success(|Describe(table)|), Without(table, name))
  }

  // What holds of every table the driver builds.

  /** Indexes sharing a MongoDB name describe the same index, each field once. */
  predicate Coherent(table: Table) {
    && (forall p, q :: p in table && q in table && Tag(p) == Tag(q) ==> DescribeOne(p) == DescribeOne(q))
    && (forall p :: p in table ==> DistinctFields(DescribeOne(p).key))
  }

  /** No physical name is used twice. */
  predicate DistinctNames(table: Table) {
    forall i, j :: 0 <= i < j < |table| ==> table[i].name != table[j].name
  }

  function DescriptionOf(d: Definition): Description {
    Description(d.name, KeyObject(d.key), d.unique, d.sparse, d.comment)
  }

  predicate NamesDiffer(descriptions: seq<Description>) {
    forall i, j :: 0 <= i < j < |descriptions| ==> descriptions[i].name != descriptions[j].name
  }

  /** Every physical index of a definition is reported as the whole of it. */
  lemma StatementsDescribe(d: Definition)
    requires Valid(d)
    ensures BuildStatements(d) != []
    ensures forall p :: p in BuildStatements(d) ==> DescribeOne(p) == DescriptionOf(d)
    ensures DistinctFields(KeyObject(d.key))
  {
    KeyObjectKeeps(d.key);
  }

  lemma {:induction false} FoundSame(descriptions: seq<Description>, d: Description)
    requires NamesDiffer(descriptions) && d in descriptions
    ensures Find(descriptions, d.name).Some? && descriptions[Find(descriptions, d.name).value] == d
  {
    var i := Find(descriptions, d.name);
    assert i.Some?;
  }

  /** Reporting an index already described changes nothing. */
  lemma AddSame(descriptions: seq<Description>, d: Description)
    requires NamesDiffer(descriptions) && d in descriptions && DistinctFields(d.key)
    ensures AddDescription(descriptions, d) == descriptions
  {
    FoundSame(descriptions, d);
    AssignSame(d.key, d.key);
  }

  /** The descriptions of a table: `_id_`, and what each index describes, under distinct names. */
  lemma {:induction false} DescriptionsAre(table: Table)
    requires Coherent(table)
    ensures NamesDiffer(Describe(table)) && ID_DESCRIPTION in Describe(table)
    ensures forall d :: d in Describe(table) ==> d == ID_DESCRIPTION || (d.name != ID_INDEX_NAME && exists p :: p in table && DescribeOne(p) == d)
    ensures forall p :: p in table && Tag(p) != ID_INDEX_NAME ==> DescribeOne(p) in Describe(table)
  {
    if table != [] {
      var front, last := table[..|table| - 1], table[|table| - 1];
      assert forall p :: p in table <==> p in front || p == last;
      DescriptionsAre(front);
      var d := DescribeOne(last);
      if d.name != ID_INDEX_NAME {
        if d in Describe(front) {
          AddSame(Describe(front), d);
        } else {
          NewNameFound(front, d);
        }
      }
    }
  }

  lemma NewNameFound(table: Table, d: Description)
    requires d.name != ID_INDEX_NAME
    requires forall e :: e in Describe(table) ==> e == ID_DESCRIPTION || (e.name != ID_INDEX_NAME && exists p :: p in table && DescribeOne(p) == e)
    requires forall p :: p in table && Tag(p) == d.name ==> DescribeOne(p) == d
    requires d !in Describe(table)
    ensures Find(Describe(table), d.name).None?
  {
  }

  /** The physical indexes of a new name are reported once, after all others. */
  lemma {:induction false} GroupReported(table: Table, group: seq<Physical>, d: Description)
    requires Coherent(table) && DistinctFields(d.key) && d.name != ID_INDEX_NAME
    requires Find(Describe(table), d.name).None?
    requires forall p :: p in group ==> DescribeOne(p) == d
    ensures Describe(table + group) == if group == [] then Describe(table) else Describe(table) + [d]
    decreases group
  {
    if group == [] {
      assert table + group == table;
    } else {
      var front, last := group[..|group| - 1], group[|group| - 1];
      assert last in group && (table + group)[..|table + group| - 1] == table + front;
      assert (table + group)[|table + group| - 1] == last;
      GroupReported(table, front, d);
      if front != [] {
        DescriptionsAre(table);
        var all := Describe(table) + [d];
        assert all[|all| - 1] == d;
        AddSame(all, d);
      }
    }
  }

  /** How far a run of statements got: all that were stored, in order, after what was there. */
  lemma {:induction false} StoredPrefix(table: Table, statements: seq<Physical>, accepts: Physical -> bool) returns (k: nat)
    ensures k <= |statements| && DefineAll(table, statements, accepts) == (k == |statements|, table + statements[..k])
    ensures k < |statements| ==> Occupied(table + statements[..k], statements[k].name) || !accepts(statements[k])
    ensures DistinctNames(table) ==> DistinctNames(table + statements[..k])
    decreases statements
  {
    if statements == [] || Occupied(table, statements[0].name) || !accepts(statements[0]) {
      assert table + statements[..0] == table;
      return 0;
    }
    var j := StoredPrefix(table + [statements[0]], statements[1..], accepts);
    k := j + 1;
    assert table + [statements[0]] + statements[1..][..j] == table + statements[..k];
    if DistinctNames(table) {
      assert forall i :: 0 <= i < |table| ==> table[i] in table;
      assert DistinctNames(table + [statements[0]]);
    }
  }

  predicate Untaken(table: Table, d: Definition) {
    && !IsIdIndexKey(d.key) && Find(Describe(table), d.name).None?
    && !KeyClash(Describe(table), d) && !PhysicalClash(table, d)
  }

  lemma NewNameIsNew(table: Table, d: Definition)
    requires Valid(d) && Coherent(table) && !IsIdIndexKey(d.key) && Find(Describe(table), d.name).None?
    ensures d.name != ID_INDEX_NAME && forall p :: p in table ==> Tag(p) != d.name
  {
    DescriptionsAre(table);
  }

  lemma GroupCoherent(table: Table, group: seq<Physical>, d: Description)
    requires Coherent(table) && DistinctFields(d.key)
    requires forall p :: p in table ==> Tag(p) != d.name
    requires forall p :: p in group ==> DescribeOne(p) == d
    ensures Coherent(table + group)
  {
    assert forall p :: p in table + group <==> p in table || p in group;
  }

  /**
   * A definition nothing clashes with is stored as a run of its physical indexes:
   * all of them, or those before the first the server refuses. Either way the
   * table stays coherent and, unless nothing was stored, reports the whole index.
   */
  lemma DefineStores(table: Table, d: Definition, accepts: Physical -> bool) returns (k: nat)
    requires Valid(d) && Coherent(table) && Untaken(table, d)
    ensures k <= |BuildStatements(d)|
    ensures var (result, after) := Define(table, d, accepts);
            && after == table + BuildStatements(d)[..k]
            && result == (if k == |BuildStatements(d)| then Success(d.name) else Failure(NotStored))
            && Coherent(after) && (DistinctNames(table) ==> DistinctNames(after))
            && Describe(after) == if k == 0 then Describe(table) else Describe(table) + [DescriptionOf(d)]
    ensures k < |BuildStatements(d)| ==>
              Occupied(table + BuildStatements(d)[..k], BuildStatements(d)[k].name) || !accepts(BuildStatements(d)[k])
  {
    var statements := BuildStatements(d);
    StatementsDescribe(d);
    k := StoredPrefix(table, statements, accepts);
    NewNameIsNew(table, d);
    GroupReported(table, statements[..k], DescriptionOf(d));
    GroupCoherent(table, statements[..k], DescriptionOf(d));
  }

  /** What is reported does not depend on the order the server lists its indexes in. */
  lemma ListingOrderIsIrrelevant(table: Table, listed: Table)
    requires Coherent(table) && forall p :: p in listed <==> p in table
    ensures Coherent(listed) && |Describe(listed)| == |Describe(table)|
    ensures forall e :: e in Describe(listed) <==> e in Describe(table)
  {
    assert Coherent(listed);
    DescriptionsAre(table);
    DescriptionsAre(listed);
    SameCount(Describe(listed), Describe(table));
  }

  lemma {:induction false} ElementsCounted(descriptions: seq<Description>)
    requires NamesDiffer(descriptions)
    ensures |set e | e in descriptions| == |descriptions|
  {
    if descriptions != [] {
      var front, last := descriptions[..|descriptions| - 1], descriptions[|descriptions| - 1];
      ElementsCounted(front);
      assert (set e | e in descriptions) == (set e | e in front) + {last};
      assert last !in front;
    }
  }

  lemma SameCount(a: seq<Description>, b: seq<Description>)
    requires NamesDiffer(a) && NamesDiffer(b) && forall e :: e in a <==> e in b
    ensures |a| == |b|
  {
    ElementsCounted(a);
    ElementsCounted(b);
    assert (set e | e in a) == (set e | e in b);
  }

  /** Created, an index is reported once, next to those there were, with its name, key and options. */
  lemma CreatedIsReported(table: Table, d: Definition, accepts: Physical -> bool)
    requires Valid(d) && Coherent(table) && Untaken(table, d) && Define(table, d, accepts).0.Success?
    ensures Describe(Define(table, d, accepts).1) == Describe(table) + [DescriptionOf(d)]
    ensures DescriptionOf(d).key == d.key <==> InObjectOrder(d.key)
  {
    var _ := DefineStores(table, d, accepts);
    StatementsDescribe(d);
    ObjectKeepsOrder(d.key);
  }

  predicate SameIndex(a: Definition, b: Definition) {
    a.name == b.name && a.key == b.key && a.unique == b.unique && a.sparse == b.sparse
  }

  /** Creating an index again, with whatever comment, succeeds and writes nothing. */
  lemma CreatingAgainWritesNothing(table: Table, d: Definition, again: Definition, accepts: Physical -> bool)
    requires Valid(d) && Coherent(table) && SameIndex(d, again) && Define(table, d, accepts).0.Success?
    ensures var after := Define(table, d, accepts).1;
            Define(after, again, accepts) == (Success(d.name), after)
  {
    if Untaken(table, d) {
      var _ := DefineStores(table, d, accepts);
      var after := Define(table, d, accepts).1;
      DescriptionsAre(after);
      StatementsDescribe(d);
      assert Describe(after)[|Describe(table)|] == DescriptionOf(d);
      FoundSame(Describe(after), DescriptionOf(d));
    }
  }

  /** The table lists an index of this name with this key and these options. */
  predicate Listed(table: Table, d: Definition) {
    exists e :: e in Describe(table) && e.name == d.name && IsEquivalent(e, d)
  }

  /** Unless the server itself refuses, creating succeeds exactly when the index is listed afterwards. */
  lemma SuccessMeansListed(table: Table, d: Definition, accepts: Physical -> bool)
    requires Valid(d) && Coherent(table) && !IsIdIndexKey(d.key)
    requires Define(table, d, accepts).0 != Failure(NotStored)
    ensures Define(table, d, accepts).0.Success? <==> Listed(Define(table, d, accepts).1, d)
  {
    var descriptions := Describe(table);
    var same := Find(descriptions, d.name);
    DescriptionsAre(table);
    if same.Some? {
      var e := descriptions[same.value];
      assert e in descriptions;
      OnlyOneOfAName(descriptions, e);
    } else if Untaken(table, d) {
      StoredWhole(table, d, accepts);
      var after := Describe(table) + [DescriptionOf(d)];
      assert after[|Describe(table)|] == DescriptionOf(d);
    }
  }

  lemma OnlyOneOfAName(descriptions: seq<Description>, e: Description)
    requires NamesDiffer(descriptions) && e in descriptions
    ensures forall f :: f in descriptions && f.name == e.name ==> f == e
  {
  }

  predicate Alike(e: Description, f: Description) {
    e.key == f.key && e.unique == f.unique && e.sparse == f.sparse
  }

  /** No two indexes of different names have the same key and options, `_id_` aside. */
  predicate KeysApart(descriptions: seq<Description>) {
    forall e, f :: e in descriptions && f in descriptions && e.name != ID_INDEX_NAME && f.name != ID_INDEX_NAME && Alike(e, f) ==> e.name == f.name
  }

  lemma DefineKeepsKeysApart(table: Table, d: Definition, accepts: Physical -> bool)
    requires Valid(d) && Coherent(table) && KeysApart(Describe(table))
    ensures KeysApart(Describe(Define(table, d, accepts).1))
  {
    if Untaken(table, d) {
      var k := DefineStores(table, d, accepts);
      var after := Describe(table) + [DescriptionOf(d)];
      assert forall e :: e in after <==> e in Describe(table) || e == DescriptionOf(d);
      assert forall e :: e in Describe(table) && Alike(e, DescriptionOf(d)) ==> IsEquivalent(e, d);
    }
  }

  /** Every refusal but the server's own leaves the table as it was. */
  lemma ConflictsWriteNothing(table: Table, d: Definition, accepts: Physical -> bool)
    requires Define(table, d, accepts).0.Failure? && Define(table, d, accepts).0.error != NotStored
    ensures Define(table, d, accepts).1 == table && !IsIdIndexKey(d.key)
    ensures Find(Describe(table), d.name).Some? || KeyClash(Describe(table), d) || PhysicalClash(table, d)
  {
  }

  /**
   * What the server refuses is not always undone: of a text index of several
   * fields those stored before the refused one stay. The collection is unchanged,
   * as the error says, exactly when the first was refused; otherwise the index is
   * reported with every one of its fields, and creating it again answers success
   * without storing the rest.
   */
  lemma RefusalMayLeaveAPart(table: Table, d: Definition, accepts: Physical -> bool)
    requires Valid(d) && Coherent(table) && Define(table, d, accepts).0 == Failure(NotStored)
    ensures var after, first := Define(table, d, accepts).1, BuildStatements(d)[0];
            && (after == table <==> Occupied(table, first.name) || !accepts(first))
            && (after != table ==> Describe(after) == Describe(table) + [DescriptionOf(d)]
                                   && Define(after, d, accepts) == (Success(d.name), after)
                                   && |after| < |table| + |BuildStatements(d)|)
  {
    var k := DefineStores(table, d, accepts);
    var after, statements := Define(table, d, accepts).1, BuildStatements(d);
    if k == 0 {
      assert table + statements[..0] == table;
    } else {
      assert |after| > |table|;
      assert !Occupied(table, statements[0].name) && accepts(statements[0]);
      DescriptionsAre(after);
      StatementsDescribe(d);
      assert Describe(after)[|Describe(table)|] == DescriptionOf(d);
      FoundSame(Describe(after), DescriptionOf(d));
    }
  }

  predicate ColumnTwice(d: Definition) {
    d.fullText && HasField(d.key, ID_FIELD) && HasField(d.key, ID_COLUMN)
  }

  lemma TwoColumns(d: Definition, i: nat, j: nat)
    requires Valid(d) && i < j < |d.key|
    ensures d.columns[i] == d.columns[j] <==> {d.key[i].field, d.key[j].field} == {ID_FIELD, ID_COLUMN}
  {
    assert ID_FIELD != ID_COLUMN by { assert |ID_FIELD| != |ID_COLUMN|; }
  }

  lemma TwoNames(d: Definition, i: nat, j: nat)
    requires Valid(d) && d.fullText && i < j < |d.key|
    ensures BuildStatements(d)[i].name == BuildStatements(d)[j].name <==> d.columns[i] == d.columns[j]
  {
    var a, b := d.name + ([UNDERSCORE] + d.columns[i]), d.name + ([UNDERSCORE] + d.columns[j]);
    assert a[|d.name| + 1..] == d.columns[i] && b[|d.name| + 1..] == d.columns[j];
  }

  lemma SharedColumn(d: Definition)
    requires Valid(d) && ColumnTwice(d)
    ensures !DistinctNames(BuildStatements(d))
  {
    var a :| a in d.key && a.field == ID_FIELD;
    var b :| b in d.key && b.field == ID_COLUMN;
    var i :| 0 <= i < |d.key| && d.key[i] == a;
    var j :| 0 <= j < |d.key| && d.key[j] == b;
    var low, high := if i < j then i else j, if i < j then j else i;
    TwoColumns(d, low, high);
    TwoNames(d, low, high);
  }

  lemma OwnColumns(d: Definition)
    requires Valid(d) && !ColumnTwice(d)
    ensures DistinctNames(BuildStatements(d))
  {
    var statements := BuildStatements(d);
    forall i, j | 0 <= i < j < |statements|
      ensures statements[i].name != statements[j].name
    {
      TwoColumns(d, i, j);
      TwoNames(d, i, j);
      assert d.key[i] in d.key && d.key[j] in d.key;
    }
  }

  lemma StuckOnName(table: Table, statements: seq<Physical>, accepts: Physical -> bool)
    requires DistinctNames(statements)
    requires forall p :: p in statements ==> accepts(p) && !Occupied(table, p.name)
    ensures DefineAll(table, statements, accepts).0
  {
    var _ := StoredPrefix(table, statements, accepts);
  }

  /** Of statements the server could read back, one fails exactly when two text fields share a column. */
  lemma OnlyASharedColumnFails(table: Table, d: Definition, accepts: Physical -> bool)
    requires Valid(d) && Untaken(table, d)
    requires forall p :: p in BuildStatements(d) ==> accepts(p)
    ensures Define(table, d, accepts).0.Success? <==> !ColumnTwice(d)
  {
    if ColumnTwice(d) {
      SharedColumn(d);
      if DefineAll(table, BuildStatements(d), accepts).0 {
        StoredNamesDiffer(table, BuildStatements(d), accepts);
      }
    } else {
      OwnColumns(d);
      StuckOnName(table, BuildStatements(d), accepts);
    }
  }

  lemma FirstIsStored(table: Table, d: Definition, accepts: Physical -> bool)
    requires Valid(d) && Untaken(table, d) && forall p :: p in BuildStatements(d) ==> accepts(p)
    ensures BuildStatements(d) != [] && !Occupied(table, BuildStatements(d)[0].name) && accepts(BuildStatements(d)[0])
  {
    StatementsDescribe(d);
    assert BuildStatements(d)[0] in BuildStatements(d);
  }

  /** A text key naming both `_id` and `id` is refused with a part of it stored, whatever else it names. */
  lemma SharedColumnLeavesAPart(table: Table, d: Definition, accepts: Physical -> bool)
    requires Valid(d) && Coherent(table) && Untaken(table, d) && ColumnTwice(d)
    requires forall p :: p in BuildStatements(d) ==> accepts(p)
    ensures Define(table, d, accepts).0 == Failure(NotStored)
    ensures var after := Define(table, d, accepts).1;
            after != table && Describe(after) == Describe(table) + [DescriptionOf(d)] && Define(after, d, accepts) == (Success(d.name), after)
  {
    OnlyASharedColumnFails(table, d, accepts);
    FirstIsStored(table, d, accepts);
    RefusalMayLeaveAPart(table, d, accepts);
  }

  /** `{_id: "text", id: "text"}`. */
  function BothIds(name: Text): Definition {
    Definition(name, [KeyEntry(ID_FIELD, TEXT), KeyEntry(ID_COLUMN, TEXT)], true, [ID_COLUMN, ID_COLUMN], false, false, None)
  }

  /** For instance that key on a collection without indexes, under any name. */
  lemma BothIdsLeaveAPart(name: Text)
    requires name != ID_INDEX_NAME
    ensures var d, all := BothIds(name), (p: Physical) => true;
            Define([], d, all).0 == Failure(NotStored) && Define([], d, all).1 != []
  {
    var d, all := BothIds(name), (p: Physical) => true;
    BothIdsAreDistinct(name);
    assert Describe([]) == [ID_DESCRIPTION];
    SharedColumnLeavesAPart([], d, all);
  }

  lemma BothIdsAreDistinct(name: Text)
    requires name != ID_INDEX_NAME
    ensures Valid(BothIds(name)) && ColumnTwice(BothIds(name)) && !IsIdIndexKey(BothIds(name).key)
  {
    var d := BothIds(name);
    assert ID_FIELD != ID_COLUMN by { assert |ID_FIELD| != |ID_COLUMN|; }
    assert d.key[0] in d.key && d.key[1] in d.key;
    assert d.columns == Columns(d.key);
    assert |d.key| == 2;
  }

  /** Statements all stored have names of their own. */
  lemma {:induction false} StoredNamesDiffer(table: Table, statements: seq<Physical>, accepts: Physical -> bool)
    requires DefineAll(table, statements, accepts).0
    ensures DistinctNames(statements)
    ensures forall p :: p in statements ==> !Occupied(table, p.name)
    decreases statements
  {
    if statements != [] {
      var first := statements[0];
      StoredNamesDiffer(table + [first], statements[1..], accepts);
      assert first in table + [first];
      assert forall p :: p in table ==> p in table + [first];
    }
  }

  // Dropping.

  lemma {:induction false} WithoutHas(table: Table, name: Text)
    ensures forall p :: p in Without(table, name) <==> p in table && Tag(p) != name
  {
    if table != [] {
      WithoutHas(table[..|table| - 1], name);
      assert forall p :: p in table <==> p in table[..|table| - 1] || p == table[|table| - 1];
    }
  }

  function DescriptionsWithout(descriptions: seq<Description>, name: Text): (r: seq<Description>)
    ensures forall d :: d in r <==> d in descriptions && d.name != name
  {
    if descriptions == [] then [] else
    var last := descriptions[|descriptions| - 1];
    DescriptionsWithout(descriptions[..|descriptions| - 1], name) + (if last.name == name then [] else [last])
  }

  lemma {:induction false} SublistNamesDiffer(descriptions: seq<Description>, name: Text)
    requires NamesDiffer(descriptions)
    ensures NamesDiffer(DescriptionsWithout(descriptions, name))
  {
    if descriptions != [] {
      var front := descriptions[..|descriptions| - 1];
      SublistNamesDiffer(front, name);
      var kept := DescriptionsWithout(front, name);
      assert forall i :: 0 <= i < |kept| ==> kept[i] in kept && kept[i] in front;
    }
  }

  /** Taking a name out of the descriptions and reporting one more index do not interfere. */
  lemma ReportedOrDropped(descriptions: seq<Description>, d: Description, name: Text)
    requires NamesDiffer(descriptions) && DistinctFields(d.key) && d.name != ID_INDEX_NAME
    requires d in descriptions || Find(descriptions, d.name).None?
    ensures DescriptionsWithout(AddDescription(descriptions, d), name) ==
            if d.name == name then DescriptionsWithout(descriptions, name) else AddDescription(DescriptionsWithout(descriptions, name), d)
  {
    SublistNamesDiffer(descriptions, name);
    if d in descriptions {
      AddSame(descriptions, d);
      if d.name != name {
        AddSame(DescriptionsWithout(descriptions, name), d);
      }
    } else {
      assert (descriptions + [d])[..|descriptions|] == descriptions;
      var i := Find(DescriptionsWithout(descriptions, name), d.name);
      assert i.None?;
      assert DescriptionsWithout(descriptions, name) + [] == DescriptionsWithout(descriptions, name);
    }
  }

  /** Dropping takes exactly the index of that name out of what is reported. */
  lemma {:induction false} DropDescribes(table: Table, name: Text)
    requires Coherent(table) && name != ID_INDEX_NAME
    ensures Coherent(Without(table, name))
    ensures Describe(Without(table, name)) == DescriptionsWithout(Describe(table), name)
  {
    WithoutHas(table, name);
    if table != [] {
      var front, last := table[..|table| - 1], table[|table| - 1];
      assert forall p :: p in table <==> p in front || p == last;
      DropDescribes(front, name);
      DescriptionsAre(front);
      var d := DescribeOne(last);
      if d.name != ID_INDEX_NAME {
        if d !in Describe(front) {
          NewNameFound(front, d);
        }
        ReportedOrDropped(Describe(front), d, name);
      }
      LastKept(Without(front, name), last);
    }
  }

  lemma LastKept(front: Table, last: Physical)
    ensures Describe(front + [last]) == AddDescription(Describe(front), DescribeOne(last)) && front + [] == front
  {
    assert (front + [last])[..|front + [last]| - 1] == front;
  }

  lemma {:induction false} WithoutNone(table: Table, name: Text)
    requires forall p :: p in table ==> Tag(p) != name
    ensures Without(table, name) == table
  {
    if table != [] {
      var front, last := table[..|table| - 1], table[|table| - 1];
      assert last in table;
      WithoutNone(front, name);
      assert front + [last] == table;
    }
  }

  lemma {:induction false} WithoutAppend(table: Table, group: seq<Physical>, name: Text)
    requires forall p :: p in table ==> Tag(p) != name
    requires forall p :: p in group ==> Tag(p) == name
    ensures Without(table + group, name) == table
    decreases group
  {
    if group == [] {
      assert table + group == table;
      WithoutNone(table, name);
    } else {
      var all, front, last := table + group, group[..|group| - 1], group[|group| - 1];
      assert last in group;
      WithoutAppend(table, front, name);
      assert all[..|all| - 1] == table + front && all[|all| - 1] == last;
      assert table + [] == table;
    }
  }

  lemma GroupDrops(table: Table, group: seq<Physical>, name: Text)
    requires name != ID_INDEX_NAME && group != []
    requires forall p :: p in table ==> Tag(p) != name
    requires forall p :: p in group ==> Tag(p) == name
    ensures Drop(table + group, name) == (Success(|Describe(table + group)|), table)
  {
    WithoutAppend(table, group, name);
    var after := table + group;
    assert after[|table|] == group[0] && group[0] in group;
    assert Tag(after[|table|]) == name && after[|table|] in after;
  }

  /** Creating and then dropping an index leaves the server's indexes exactly as they were. */
  lemma DropUndoesDefine(table: Table, d: Definition, accepts: Physical -> bool)
    requires Valid(d) && Coherent(table) && Untaken(table, d) && Define(table, d, accepts).0.Success?
    ensures Drop(Define(table, d, accepts).1, d.name) == (Success(|Describe(table)| + 1), table)
  {
    StoredWhole(table, d, accepts);
    var statements := BuildStatements(d);
    StatementsDescribe(d);
    NewNameIsNew(table, d);
    GroupTagged(statements, DescriptionOf(d));
    GroupDrops(table, statements, d.name);
  }

  /** A stored prefix that counts as success is the whole list. */
  lemma WholePrefix(table: Table, statements: seq<Physical>, k: nat, result: Result<Text, IndexError>, name: Text)
    requires k <= |statements| && result == (if k == |statements| then Success(name) else Failure(NotStored)) && result.Success?
    ensures k == |statements| && table + statements[..k] == table + statements
  {
    assert statements[..|statements|] == statements;
  }

  lemma StoredWhole(table: Table, d: Definition, accepts: Physical -> bool)
    requires Valid(d) && Coherent(table) && Untaken(table, d) && Define(table, d, accepts).0.Success?
    ensures Define(table, d, accepts).1 == table + BuildStatements(d)
    ensures Describe(table + BuildStatements(d)) == Describe(table) + [DescriptionOf(d)]
  {
    var k := DefineStores(table, d, accepts);
    SomeStatement(d);
    WholePrefix(table, BuildStatements(d), k, Define(table, d, accepts).0, d.name);
  }

  lemma SomeStatement(d: Definition)
    requires Valid(d)
    ensures |BuildStatements(d)| > 0
  {
    StatementsDescribe(d);
  }

  lemma GroupTagged(group: seq<Physical>, d: Description)
    requires forall p :: p in group ==> DescribeOne(p) == d
    ensures forall p :: p in group ==> Tag(p) == d.name
  {
  }

  // Whole runs.

  datatype Operation = Create(definition: Definition) | DropOne(name: Text) | DropEvery

  function Perform(table: Table, op: Operation, accepts: Physical -> bool): Table {
    match op
    case Create(d) => Define(table, d, accepts).1
    case DropOne(name) => Drop(table, name).1
    case DropEvery => []
  }

  function PerformAll(table: Table, ops: seq<Operation>, accepts: Physical -> bool): Table {
    if ops == [] then table else Perform(PerformAll(table, ops[..|ops| - 1], accepts), ops[|ops| - 1], accepts)
  }

  lemma {:induction false} WithoutDistinct(table: Table, name: Text)
    requires DistinctNames(table)
    ensures DistinctNames(Without(table, name))
  {
    if table != [] {
      var front := table[..|table| - 1];
      WithoutDistinct(front, name);
      WithoutHas(front, name);
      var kept := Without(front, name);
      assert forall i :: 0 <= i < |kept| ==> kept[i] in kept && kept[i] in front;
    }
  }

  /**
   * From an empty table, whatever is created and dropped and whatever the server
   * refuses: no physical name twice, one description for each name, no key twice.
   */
  lemma {:induction false} RunsStayCoherent(ops: seq<Operation>, accepts: Physical -> bool)
    requires forall op :: op in ops && op.Create? ==> Valid(op.definition)
    ensures Coherent(PerformAll([], ops, accepts)) && DistinctNames(PerformAll([], ops, accepts))
    ensures KeysApart(Describe(PerformAll([], ops, accepts)))
  {
    if ops != [] {
      var front, last := ops[..|ops| - 1], ops[|ops| - 1];
      assert last in ops;
      RunsStayCoherent(front, accepts);
      var table := PerformAll([], front, accepts);
      if last.Create? {
        DefineKeepsKeysApart(table, last.definition, accepts);
        if Untaken(table, last.definition) {
          var _ := DefineStores(table, last.definition, accepts);
        }
      } else if last.DropOne? && last.name != ID_INDEX_NAME {
        DropDescribes(table, last.name);
        WithoutDistinct(table, last.name);
      }
    }
  }
}
