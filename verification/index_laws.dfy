/**
 * What requests are served, how indexes are named on the server, and what is reported of
 * indexes made elsewhere.
 */
module IndexLaws {
  import opened Values
  import opened Identifiers
  import opened IndexNames
  import opened IndexDefinitions

  /** The text of `part` stands in `text` at position `i`. */
  predicate StandsAt(text: Text, part: Text, i: nat) {
    i + |part| <= |text| && text[i..i + |part|] == part
  }

  lemma {:induction false} ContainsExactly(text: Text, part: Text)
    ensures Contains(text, part) <==> exists i: nat :: StandsAt(text, part, i)
  {
    if part <= text {
      assert StandsAt(text, part, 0);
    } else if text == [] {
      assert !exists i: nat :: StandsAt(text, part, i);
    } else {
      ContainsExactly(text[1..], part);
      StandsLater(text, part);
    }
  }

  lemma StandsLater(text: Text, part: Text)
    requires text != [] && !(part <= text)
    ensures (exists i: nat :: StandsAt(text, part, i)) <==> exists i: nat :: StandsAt(text[1..], part, i)
  {
    if i: nat :| StandsAt(text, part, i) {
      assert i > 0 by { assert i == 0 ==> part <= text; }
      assert text[1..][i - 1..i - 1 + |part|] == text[i..i + |part|];
      assert StandsAt(text[1..], part, i - 1);
    }
    if i: nat :| StandsAt(text[1..], part, i) {
      assert text[1..][i..i + |part|] == text[i + 1..i + 1 + |part|];
      assert StandsAt(text, part, i + 1);
    }
  }

  /** `$**` stands somewhere in the field's name. */
  predicate IsWildcard(field: Text) {
    exists i: nat :: i + 3 <= |field| && field[i] == 36 && field[i + 1] == 42 && field[i + 2] == 42
  }

  lemma WildcardExactly(field: Text)
    ensures Contains(field, WILDCARD) <==> IsWildcard(field)
  {
    ContainsExactly(field, WILDCARD);
    if i: nat :| StandsAt(field, WILDCARD, i) {
      assert field[i..i + 3] == WILDCARD;
      assert field[i] == field[i..i + 3][0] && field[i + 1] == field[i..i + 3][1] && field[i + 2] == field[i..i + 3][2];
    }
    if i: nat :| i + 3 <= |field| && field[i] == 36 && field[i + 1] == 42 && field[i + 2] == 42 {
      assert field[i..i + 3] == WILDCARD;
      assert StandsAt(field, WILDCARD, i);
    }
  }

  /** One kind of index for every field: ascending and descending ones, or text. */
  predicate OneKind(key: Key) {
    (forall e :: e in key ==> e.direction == Ascending || e.direction == Descending) || (forall e :: e in key ==> e.direction == TEXT)
  }

  predicate Unmixed(key: Key) {
    !(exists e :: e in key && !Servable(e)) && !((exists e :: e in key && e.direction == TEXT) && (exists e :: e in key && e.direction != TEXT))
  }

  /** Every entry can be served and text is not mixed with other kinds exactly when no field is a wildcard and all are of one kind. */
  lemma ServedKeys(key: Key)
    ensures Unmixed(key) <==> (forall e :: e in key ==> !IsWildcard(e.field)) && OneKind(key)
  {
    forall e | e in key
      ensures Servable(e) <==> !IsWildcard(e.field) && (e.direction == TEXT || e.direction == Ascending || e.direction == Descending)
    {
      WildcardExactly(e.field);
    }
  }

  lemma IdKeyExactly(key: Key)
    ensures IsIdIndexKey(key) <==> key == [KeyEntry(ID_FIELD, Ascending)]
  {
  }

  lemma ResolveGuards(key: Key, entries: seq<KeyEntry>, name: Option<Text>, unique: bool, sparse: bool, comment: Option<Text>, indexable: Text -> bool)
    requires key == ResolveKey(entries)
    ensures Resolve(entries, name, unique, sparse, comment, indexable).Success? <==>
              && key != []
              && (|key| == 1 && key[0].field == ID_FIELD ==> key[0].direction == Ascending)
              && (forall e :: e in key ==> indexable(e.field))
              && Unmixed(key)
              && (name == Some(ID_INDEX_NAME) ==> IsIdIndexKey(key))
  {
  }

  /**
   * A request is served exactly when its key is not empty, an `_id` alone is ascending,
   * every field can be indexed and names no wildcard, the fields are of one kind, and the
   * reserved name goes with the `_id` key.
   */
  lemma ResolvesExactly(entries: seq<KeyEntry>, name: Option<Text>, unique: bool, sparse: bool, comment: Option<Text>, indexable: Text -> bool)
    ensures var key := ResolveKey(entries);
            Resolve(entries, name, unique, sparse, comment, indexable).Success? <==>
              && key != []
              && (|key| == 1 && key[0].field == ID_FIELD ==> key[0].direction == Ascending)
              && (forall e :: e in key ==> indexable(e.field))
              && (forall e :: e in key ==> !IsWildcard(e.field))
              && OneKind(key)
              && (name == Some(ID_INDEX_NAME) ==> key == [KeyEntry(ID_FIELD, Ascending)])
  {
    ResolveGuards(ResolveKey(entries), entries, name, unique, sparse, comment, indexable);
    ServedKeys(ResolveKey(entries));
    IdKeyExactly(ResolveKey(entries));
  }

  /** A field a plain object orders as an array index: the decimal spelling of one of the first 2^32 - 1 numbers. */
  lemma IntegerLikeExactly(field: Text)
    ensures IntegerLike(field) <==> exists n: nat :: n < 0x1_0000_0000 - 1 && field == Digits(n)
  {
    if IntegerLike(field) {
      CanonicalDigits(field);
    }
    if n: nat :| n < 0x1_0000_0000 - 1 && field == Digits(n) {
      DigitsRead(n);
      DigitsAreCanonical(n);
    }
  }

  lemma {:induction false} DigitsAreCanonical(n: nat)
    ensures Canonical(Digits(n)) && (Digits(n)[0] == ZERO ==> n == 0)
  {
    if n >= 10 {
      DigitsAreCanonical(n / 10);
      assert Digits(n)[0] == Digits(n / 10)[0];
    }
  }

  /** A single column, or columns of one ordinary index, go by the MongoDB name; several text columns by names of their own. */
  lemma PhysicalNamesTell(d: Definition, a: Text, b: Text)
    ensures !d.fullText || |d.columns| == 1 ==> PhysicalName(d, a) == d.name
    ensures d.fullText && |d.columns| > 1 ==> PhysicalName(d, a) != d.name && (PhysicalName(d, a) == PhysicalName(d, b) <==> a == b)
  {
    var prefix := d.name + [UNDERSCORE];
    assert d.name + ([UNDERSCORE] + a) == prefix + a && d.name + ([UNDERSCORE] + b) == prefix + b;
    assert (prefix + a)[|prefix|..] == a && (prefix + b)[|prefix|..] == b;
    assert |prefix + a| > |d.name|;
  }

  /** Reading columns back gives the key they came from, where no field is the column `id` itself. */
  lemma InferredFromColumns(key: Key, direction: Direction)
    requires forall e :: e in key ==> e.direction == direction && e.field != ID_COLUMN
    ensures InferEntries(Columns(key), direction) == key
  {
    forall i | 0 <= i < |key|
      ensures InferEntries(Columns(key), direction)[i] == key[i]
    {
      assert key[i] in key;
    }
  }

  /** An index defined elsewhere is reported under its own name, by its columns and its kind, with whatever comment it has. */
  lemma ForeignIsInferred(name: Text, key: Key, clause: Clause, comment: Option<Text>)
    requires forall e :: e in key ==> e.field != ID_COLUMN && e.direction == if clause.FullText? then TEXT else Ascending
    ensures DescribeOne(Physical(name, Columns(key), clause, if comment.Some? then Some(Foreign(comment.value)) else None))
         == Description(name, KeyObject(key), clause.Unique?, false, comment)
  {
    InferredFromColumns(key, if clause.FullText? then TEXT else Ascending);
  }
}
