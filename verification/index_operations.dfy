/** The index operations and the cache of text fields they keep current. */
module IndexOperations {
  import opened Values
  import opened Identifiers
  import opened IndexNames
  import opened IndexDefinitions
  import opened IndexLifecycle

  datatype CachedKey = CachedKey(name: Text, key: Key)

  function CachedAs(d: Description): CachedKey {
    CachedKey(d.name, d.key)
  }

  function Cached(descriptions: seq<Description>): (r: seq<CachedKey>)
    ensures |r| == |descriptions|
    ensures forall i :: 0 <= i < |r| ==> r[i] == CachedAs(descriptions[i])
  {
    if descriptions == [] then [] else Cached(descriptions[..|descriptions| - 1]) + [CachedAs(descriptions[|descriptions| - 1])]
  }

  predicate HasName(cache: seq<CachedKey>, name: Text) {
    exists c :: c in cache && c.name == name
  }

  /** Sets an entry of an insertion-ordered map. */
  function SetEntry(cache: seq<CachedKey>, entry: CachedKey): seq<CachedKey> {
    if HasName(cache, entry.name)
    then seq(|cache|, i requires 0 <= i < |cache| => if cache[i].name == entry.name then entry else cache[i])
    else cache + [entry]
  }

  /** Afterwards the name has that entry alone, and every other entry is as it was. */
  lemma SetEntryKeeps(cache: seq<CachedKey>, entry: CachedKey)
    ensures var after := SetEntry(cache, entry);
            && entry in after
            && (forall c :: c in after && c.name == entry.name ==> c == entry)
            && (forall c: CachedKey :: c.name != entry.name ==> (c in after <==> c in cache))
  {
    var after := SetEntry(cache, entry);
    if HasName(cache, entry.name) {
      var c :| c in cache && c.name == entry.name;
      var k :| 0 <= k < |cache| && cache[k] == c;
      assert after[k] == entry;
      forall c: CachedKey | c.name != entry.name
        ensures c in after <==> c in cache
      {
        if i :| 0 <= i < |cache| && cache[i] == c {
          assert after[i] == c;
        }
        if i :| 0 <= i < |after| && after[i] == c {
          assert cache[i] == c;
        }
      }
    }
  }

  function SetAll(cache: seq<CachedKey>, descriptions: seq<Description>): seq<CachedKey> {
    if descriptions == [] then cache
    else SetEntry(SetAll(cache, descriptions[..|descriptions| - 1]), CachedAs(descriptions[|descriptions| - 1]))
  }

  function DeleteEntry(cache: seq<CachedKey>, name: Text): seq<CachedKey> {
    if cache == [] then [] else
    var last := cache[|cache| - 1];
    DeleteEntry(cache[..|cache| - 1], name) + (if last.name == name then [] else [last])
  }

  function TextFieldsOfKey(key: Key): seq<Text> {
    if key == [] then [] else (if key[0].direction == TEXT then [key[0].field] else []) + TextFieldsOfKey(key[1..])
  }

  /** The fields a text search goes over. */
  function TextFields(cache: seq<CachedKey>): seq<Text> {
    if cache == [] then [] else TextFields(cache[..|cache| - 1]) + TextFieldsOfKey(cache[|cache| - 1].key)
  }

  class IndexRegistry {
    var keys: seq<CachedKey>
    var loaded: bool

    constructor ()
      ensures keys == [] && !loaded
    {
      keys, loaded := [], false;
    }

    /** Replaces the cache with what the server reports. */
    method Sync(descriptions: seq<Description>)
      modifies this
      ensures loaded && keys == SetAll([], descriptions)
    {
      keys := [];
      for i := 0 to |descriptions|
        invariant keys == SetAll([], descriptions[..i])
      {
        assert descriptions[..i + 1][..i] == descriptions[..i];
        Add(descriptions[i].key, descriptions[i].name);
      }
      assert descriptions[..|descriptions|] == descriptions;
      loaded := true;
    }

    method Add(key: Key, name: Text)
      modifies this
      ensures keys == SetEntry(old(keys), CachedKey(name, key)) && loaded == old(loaded)
    {
      keys := SetEntry(keys, CachedKey(name, key));
    }

    method Remove(name: Text)
      modifies this
      ensures keys == DeleteEntry(old(keys), name) && loaded == old(loaded)
    {
      keys := DeleteEntry(keys, name);
    }
  }

  // The cache and the server's indexes.

  /** The text fields of what the server reports. */
  function ServerTextFields(table: Table): seq<Text> {
    TextFields(Cached(Describe(table)))
  }

  lemma {:induction false} SyncedCache(descriptions: seq<Description>)
    requires NamesDiffer(descriptions)
    ensures SetAll([], descriptions) == Cached(descriptions)
  {
    if descriptions != [] {
      var front := descriptions[..|descriptions| - 1];
      SyncedCache(front);
      assert forall c :: c in Cached(front) ==> exists i :: 0 <= i < |front| && Cached(front)[i] == c;
    }
  }

  lemma {:induction false} DeletedCache(descriptions: seq<Description>, name: Text)
    ensures DeleteEntry(Cached(descriptions), name) == Cached(DescriptionsWithout(descriptions, name))
  {
    if descriptions != [] {
      var front, last := descriptions[..|descriptions| - 1], descriptions[|descriptions| - 1];
      DeletedCache(front, name);
      var kept := DescriptionsWithout(front, name);
      assert (Cached(front) + [CachedAs(last)])[..|front|] == Cached(front);
      assert (kept + [last])[..|kept|] == kept;
      assert kept + [] == kept && Cached(kept) + [] == Cached(kept);
    }
  }

  lemma AddedCache(descriptions: seq<Description>, d: Description)
    requires forall e :: e in descriptions ==> e.name != d.name
    ensures SetEntry(Cached(descriptions), CachedAs(d)) == Cached(descriptions + [d])
    ensures TextFields(Cached(descriptions + [d])) == TextFields(Cached(descriptions)) + TextFieldsOfKey(d.key)
  {
    assert (descriptions + [d])[..|descriptions|] == descriptions;
    assert forall c :: c in Cached(descriptions) ==> exists i :: 0 <= i < |descriptions| && Cached(descriptions)[i] == c;
    assert (Cached(descriptions) + [CachedAs(d)])[..|descriptions|] == Cached(descriptions);
  }

  lemma {:induction false} AllTextFields(key: Key)
    requires forall e :: e in key ==> e.direction == TEXT
    ensures |TextFieldsOfKey(key)| == |key|
  {
    if key != [] {
      assert key[0] in key;
      AllTextFields(key[1..]);
    }
  }

  /** A request as a caller of `createIndexes` makes it. */
  datatype Request = Request(entries: seq<KeyEntry>, name: Option<Text>, unique: bool, sparse: bool, comment: Option<Text>)

  function ResolveAll(requests: seq<Request>, indexable: Text -> bool): Result<seq<Definition>, IndexError> {
    if requests == [] then Success([]) else
    var front :- ResolveAll(requests[..|requests| - 1], indexable);
    var r := requests[|requests| - 1];
    var last :- Resolve(r.entries, r.name, r.unique, r.sparse, r.comment, indexable);
    Success(front + [last])
  }

  /** One definition after another until one fails; the names so far, and the table then. */
  function DefineEach(table: Table, definitions: seq<Definition>, accepts: Physical -> bool): (Result<seq<Text>, IndexError>, Table) {
    if definitions == [] then (Success([]), table) else
    var (front, before) := DefineEach(table, definitions[..|definitions| - 1], accepts);
    if front.Failure? then (front, before) else
    var (result, after) := Define(before, definitions[|definitions| - 1], accepts);
    (if result.Success? then Success(front.value + [result.value]) else Failure(result.error), after)
  }

  /** Once one definition failed those after it are not tried. */
  lemma {:induction false} FailureStops(table: Table, definitions: seq<Definition>, i: nat, accepts: Physical -> bool)
    requires i <= |definitions| && DefineEach(table, definitions[..i], accepts).0.Failure?
    ensures DefineEach(table, definitions, accepts) == DefineEach(table, definitions[..i], accepts)
    decreases |definitions|
  {
    if i == |definitions| {
      assert definitions[..i] == definitions;
    } else {
      assert definitions[..|definitions| - 1][..i] == definitions[..i];
      FailureStops(table, definitions[..|definitions| - 1], i, accepts);
    }
  }

  class IndexOperations {
    const accepts: Physical -> bool
    const registry: IndexRegistry
    var table: Table

    constructor (accepts: Physical -> bool)
      ensures table == [] && !registry.loaded && fresh(registry)
      ensures this.accepts == accepts
    {
      this.accepts, table := accepts, [];
      registry := new IndexRegistry();
    }

    /** What the cache holds, once read, are the text fields of the server's indexes. */
    ghost predicate Current()
      reads this, registry
    {
      registry.loaded ==> TextFields(registry.keys) == ServerTextFields(table)
    }

    method ReadInventory() returns (descriptions: seq<Description>, tags: seq<Text>)
      modifies registry
      ensures descriptions == Describe(table)
      ensures |tags| == |table| && forall i :: 0 <= i < |table| ==> tags[i] == Tag(table[i])
      ensures registry.loaded && registry.keys == SetAll([], descriptions)
    {
      descriptions, tags := DescribeIndexes(table);
      registry.Sync(descriptions);
    }

    /** One statement, with the read-back that undoes it when the server cannot read it. */
    method DefineOneIndex(statement: Physical) returns (stored: bool)
      modifies this`table
      ensures stored <==> !Occupied(old(table), statement.name) && accepts(statement)
      ensures table == if stored then old(table) + [statement] else old(table)
    {
      stored := !Occupied(table, statement.name) && accepts(statement);
      if stored {
        table := table + [statement];
      }
    }

    method DefineStatements(statements: seq<Physical>) returns (stored: bool)
      modifies this`table
      ensures (stored, table) == DefineAll(old(table), statements, accepts)
    {
      var i := 0;
      assert statements[0..] == statements;
      while i < |statements|
        invariant 0 <= i <= |statements|
        invariant DefineAll(table, statements[i..], accepts) == DefineAll(old(table), statements, accepts)
      {
        assert statements[i..][1..] == statements[i + 1..];
        stored := DefineOneIndex(statements[i]);
        if !stored {
          return;
        }
        i := i + 1;
      }
      stored := true;
    }

    /**
     * Creates an index, or finds that it needs no work. The cache stays current
     * unless the server refused the index partway.
     */
    method DefineIndex(d: Definition) returns (result: Result<Text, IndexError>)
      modifies this`table, registry
      ensures (result, table) == Define(old(table), d, accepts)
      ensures Valid(d) && Coherent(old(table)) && old(Current()) ==>
                (Current() <==> !(result == Failure(NotStored) && table != old(table)))
    {
      if IsIdIndexKey(d.key) {
        return Success(d.name);
      }
      ghost var before := table;
      var descriptions, _ := ReadInventory();
      var same := Find(descriptions, d.name);
      ghost var watched := Valid(d) && Coherent(table);
      if watched {
        DescriptionsAre(table);
        SyncedCache(descriptions);
      }
      if same.Some? {
        return if IsEquivalent(descriptions[same.value], d) then Success(d.name) else Failure(NameTaken);
      }
      if KeyClash(descriptions, d) {
        return Failure(KeyTaken);
      }
      if PhysicalClash(table, d) {
        return Failure(PhysicalNameTaken);
      }
      var stored := DefineStatements(BuildStatements(d));
      if watched {
        CacheAfter(before, d, accepts);
      }
      if !stored {
        return Failure(NotStored);
      }
      registry.Add(KeyObject(d.key), d.name);
      result := Success(d.name);
    }

    /** Every request is checked before any is carried out. */
    method CreateIndexes(requests: seq<Request>, indexable: Text -> bool) returns (result: Result<seq<Text>, IndexError>)
      modifies this`table, registry
      ensures var resolved := ResolveAll(requests, indexable);
              if resolved.Failure? then result == Failure(resolved.error) && table == old(table)
              else (result, table) == DefineEach(old(table), resolved.value, accepts)
    {
      var resolved := ResolveAll(requests, indexable);
      if resolved.Failure? {
        return Failure(resolved.error);
      }
      var definitions, names := resolved.value, [];
      for i := 0 to |definitions|
        invariant (Success(names), table) == DefineEach(old(table), definitions[..i], accepts)
      {
        assert definitions[..i + 1][..i] == definitions[..i];
        var one := DefineIndex(definitions[i]);
        if one.Failure? {
          FailureStops(old(table), definitions, i + 1, accepts);
          return Failure(one.error);
        }
        names := names + [one.value];
      }
      assert definitions[..|definitions|] == definitions;
      result := Success(names);
    }

    method RemoveIndex(name: Text)
      modifies this`table
      ensures table == Removed(old(table), name)
    {
      table := Removed(table, name);
    }

    /** Removes, one by one, the physical indexes the inventory gives a MongoDB name. */
    method RemovePhysical(tags: seq<Text>, name: Text)
      requires DistinctNames(table)
      requires |tags| == |table| && forall i :: 0 <= i < |tags| ==> tags[i] == Tag(table[i])
      modifies this`table
      ensures table == Without(old(table), name)
    {
      var before := table;
      var i := 0;
      assert before[..0] == [] && before[0..] == before;
      while i < |tags|
        invariant 0 <= i <= |tags|
        invariant table == Without(before[..i], name) + before[i..]
      {
        RemoveOne(before, i, name);
        if tags[i] == name {
          RemoveIndex(before[i].name);
        }
        i := i + 1;
      }
      assert before[..i] == before && before[i..] == [];
    }

    /** Drops every physical index of a MongoDB name. */
    method DropIndex(name: Text) returns (result: Result<nat, IndexError>)
      requires DistinctNames(table)
      modifies this`table, registry
      ensures (result, table) == Drop(old(table), name)
      ensures Coherent(old(table)) && old(Current()) ==> Current()
    {
      if name == ID_INDEX_NAME {
        return Failure(CannotDropId);
      }
      var descriptions, tags := ReadInventory();
      ghost var coherent := Coherent(table);
      if coherent {
        DescriptionsAre(table);
        SyncedCache(descriptions);
        DropDescribes(table, name);
        DeletedCache(descriptions, name);
      }
      assert name in tags <==> exists p :: p in table && Tag(p) == name by {
        Tagged(table, tags, name);
      }
      if name !in tags {
        return Failure(NotFound);
      }
      RemovePhysical(tags, name);
      registry.Remove(name);
      result := Success(|descriptions|);
    }

    /** Drops every index the server holds, whoever defined it. */
    method DropIndexes() returns (dropped: bool)
      requires DistinctNames(table)
      modifies this`table, registry
      ensures dropped && table == []
      ensures Current() && registry.loaded
    {
      var descriptions, tags := ReadInventory();
      var physical := table;
      var i := 0;
      assert physical[0..] == physical;
      while i < |physical|
        invariant 0 <= i <= |physical|
        invariant table == physical[i..]
      {
        assert [] + ([physical[i]] + physical[i + 1..]) == physical[i..];
        RemovedBetween([], physical[i], physical[i + 1..]);
        RemoveIndex(physical[i].name);
        i := i + 1;
      }
      registry.Sync([]);
      assert Describe(table) == [ID_DESCRIPTION];
      assert TextFieldsOfKey(ID_DESCRIPTION.key) == [] by {
        assert ID_DESCRIPTION.key[1..] == [];
      }
      assert Cached([ID_DESCRIPTION]) == [CachedAs(ID_DESCRIPTION)];
      dropped := true;
    }
  }

  lemma Tagged(table: Table, tags: seq<Text>, name: Text)
    requires |tags| == |table| && forall i :: 0 <= i < |tags| ==> tags[i] == Tag(table[i])
    ensures name in tags <==> exists p :: p in table && Tag(p) == name
  {
    if name in tags {
      var i :| 0 <= i < |tags| && tags[i] == name;
      assert table[i] in table;
    }
  }

  /** The table without the physical index of that name. */
  function Removed(table: Table, name: Text): Table {
    if table == [] then [] else (if table[0].name == name then [] else [table[0]]) + Removed(table[1..], name)
  }

  lemma HasTextFields(d: Definition)
    requires Valid(d) && d.fullText
    ensures TextFieldsOfKey(KeyObject(d.key)) != []
  {
    KeyObjectKeeps(d.key);
    AllTextFields(KeyObject(d.key));
    assert d.key[0] in KeyObject(d.key);
  }

  /** After a definition ran, whole or not, what the cache has to learn. */
  lemma CacheAfter(table: Table, d: Definition, accepts: Physical -> bool)
    requires Valid(d) && Coherent(table) && Untaken(table, d)
    ensures var (stored, after) := DefineAll(table, BuildStatements(d), accepts);
            && (stored ==> SetEntry(Cached(Describe(table)), CachedKey(d.name, KeyObject(d.key))) == Cached(Describe(after)))
            && (!stored ==> (TextFields(Cached(Describe(table))) == ServerTextFields(after) <==> after == table))
  {
    var k := DefineStores(table, d, accepts);
    AddedCache(Describe(table), DescriptionOf(d));
    var after := Define(table, d, accepts).1;
    if k == 0 {
      assert after == table;
    } else {
      assert |after| > |table|;
      if d.fullText {
        HasTextFields(d);
      }
    }
  }

  lemma WithoutStep(table: Table, i: nat, name: Text)
    requires i < |table|
    ensures Without(table[..i + 1], name) == Without(table[..i], name) + (if Tag(table[i]) == name then [] else [table[i]])
  {
    assert table[..i + 1][..i] == table[..i];
  }

  lemma RemoveOne(table: Table, i: nat, name: Text)
    requires DistinctNames(table) && i < |table|
    ensures Without(table[..i + 1], name) + table[i + 1..] ==
            if Tag(table[i]) == name then Removed(Without(table[..i], name) + table[i..], table[i].name)
            else Without(table[..i], name) + table[i..]
  {
    var kept, p, rest := Without(table[..i], name), table[i], table[i + 1..];
    WithoutStep(table, i, name);
    assert table[i..] == [p] + rest;
    if Tag(p) == name {
      WithoutHas(table[..i], name);
      OthersDiffer(table, i);
      RemovedBetween(kept, p, rest);
      assert kept + [] == kept;
    } else {
      assert kept + [p] + rest == kept + ([p] + rest);
    }
  }

  lemma OthersDiffer(table: Table, i: nat)
    requires DistinctNames(table) && i < |table|
    ensures forall q :: q in table[..i] || q in table[i + 1..] ==> q.name != table[i].name
  {
  }

  lemma {:induction false} RemovedBetween(front: Table, p: Physical, rest: Table)
    requires forall q :: q in front || q in rest ==> q.name != p.name
    ensures Removed(front + ([p] + rest), p.name) == front + rest
  {
    var all := front + ([p] + rest);
    if front == [] {
      assert all == [p] + rest && all[1..] == rest;
      RemovedNone(rest, p.name);
    } else {
      assert front[0] in front && all[1..] == front[1..] + ([p] + rest);
      RemovedBetween(front[1..], p, rest);
      assert [front[0]] + (front[1..] + rest) == front + rest;
    }
  }

  lemma {:induction false} RemovedNone(table: Table, name: Text)
    requires forall q :: q in table ==> q.name != name
    ensures Removed(table, name) == table
  {
    if table != [] {
      assert table[0] in table;
      RemovedNone(table[1..], name);
    }
  }
}
