/**
 * The `field_1_other_-1` naming of indexes, and recovering a key from a name.
 */
module IndexNames {
  import opened Values
  import opened Identifiers

  const UNDERSCORE: Unit := 95

  /** A key entry's direction: the two sort orders, or a kind such as `text`. */
  datatype Direction = Ascending | Descending | Special(kind: Text)

  datatype KeyEntry = KeyEntry(field: Text, direction: Direction)

  const ONE: Text := [49]
  const MINUS_ONE: Text := [45, 49]

  function DirectionText(d: Direction): Text {
    match d
    case Ascending => ONE
    case Descending => MINUS_ONE
    case Special(kind) => kind
  }

  function EntryText(entry: KeyEntry): Text {
    entry.field + ([UNDERSCORE] + DirectionText(entry.direction))
  }

  function GenerateIndexName(key: seq<KeyEntry>): Text {
    if key == [] then []
    else if |key| == 1 then EntryText(key[0])
    else EntryText(key[0]) + ([UNDERSCORE] + GenerateIndexName(key[1..]))
  }

  // Segments between underscores.

  /** The segments of `text` between underscores: always at least one. */
  function Segments(text: Text): (segments: seq<Text>)
    ensures segments != []
    ensures forall s :: s in segments ==> UNDERSCORE !in s
  {
    if text == [] then [[]]
    else if text[0] == UNDERSCORE then [[]] + Segments(text[1..])
    else
      var rest := Segments(text[1..]);
      [[text[0]] + rest[0]] + rest[1..]
  }

  function Join(segments: seq<Text>): Text {
    if segments == [] then []
    else if |segments| == 1 then segments[0]
    else segments[0] + ([UNDERSCORE] + Join(segments[1..]))
  }

  lemma {:induction false} JoinSegments(text: Text)
    ensures Join(Segments(text)) == text
  {
    if text != [] {
      JoinSegments(text[1..]);
      var rest := Segments(text[1..]);
      if text[0] == UNDERSCORE {
        assert Segments(text)[1..] == rest;
        assert text == [UNDERSCORE] + text[1..];
      } else {
        assert Segments(text)[1..] == rest[1..];
        assert text == [text[0]] + text[1..];
        if |rest| > 1 {
          Reassociate([text[0]], rest[0], [UNDERSCORE] + Join(rest[1..]));
        }
      }
    }
  }

  /** Around an underscore the segments of a text are those of its two sides. */
  lemma {:induction false} SegmentsAppend(a: Text, b: Text)
    ensures Segments(a + ([UNDERSCORE] + b)) == Segments(a) + Segments(b)
  {
    var text := a + ([UNDERSCORE] + b);
    if a == [] {
      assert text == [UNDERSCORE] + b && text[1..] == b;
    } else {
      assert text[1..] == a[1..] + ([UNDERSCORE] + b);
      SegmentsAppend(a[1..], b);
    }
  }

  lemma {:induction false} OneSegment(text: Text)
    requires UNDERSCORE !in text
    ensures Segments(text) == [text]
  {
    if text != [] {
      OneSegment(text[1..]);
      assert text == [text[0]] + text[1..];
    }
  }

  // Reading a name.

  predicate IsDirection(token: Text) {
    token == ONE || token == MINUS_ONE
  }

  function ReadDirection(token: Text): Direction {
    if token == ONE then Ascending else Descending
  }

  /** The fields the tokens from the front spell, `current` holding those of an open one. */
  function ReadKey(tokens: seq<Text>, current: seq<Text>): Option<seq<KeyEntry>> {
    if tokens == [] then if current == [] then Some([]) else None
    else if IsDirection(tokens[0]) then
      if current == [] then None else
      var rest :- ReadKey(tokens[1..], []);
      Some([KeyEntry(Join(current), ReadDirection(tokens[0]))] + rest)
    else ReadKey(tokens[1..], current + [tokens[0]])
  }

  function KeyOfTokens(tokens: seq<Text>): Option<seq<KeyEntry>> {
    var key :- ReadKey(tokens, []);
    if key == [] then None else Some(key)
  }

  method KeyFromIndexName(name: Text) returns (key: Option<seq<KeyEntry>>)
    ensures key == KeyOfTokens(Segments(name))
  {
    var tokens := Segments(name);
    var fields := [];
    var current := [];
    var i := 0;
    assert tokens[0..] == tokens;
    assert ReadKey(tokens, []).Some? ==> [] + ReadKey(tokens, []).value == ReadKey(tokens, []).value;
    while i < |tokens|
      invariant 0 <= i <= |tokens|
      invariant ReadKey(tokens, []) == Preceded(fields, ReadKey(tokens[i..], current))
    {
      var token := tokens[i];
      assert tokens[i..][1..] == tokens[i + 1..];
      if token == ONE || token == MINUS_ONE {
        if current == [] {
          return None;
        }
        PrecededAppend(fields, KeyEntry(Join(current), ReadDirection(token)), ReadKey(tokens[i + 1..], []));
        fields := fields + [KeyEntry(Join(current), ReadDirection(token))];
        current := [];
      } else {
        current := current + [token];
      }
      i := i + 1;
    }
    assert tokens[i..] == [] && fields + [] == fields;
    if current != [] || fields == [] {
      return None;
    }
    key := Some(fields);
  }

  function Preceded(fields: seq<KeyEntry>, rest: Option<seq<KeyEntry>>): Option<seq<KeyEntry>> {
    if rest.Some? then Some(fields + rest.value) else None
  }

  lemma PrecededAppend(fields: seq<KeyEntry>, entry: KeyEntry, rest: Option<seq<KeyEntry>>)
    ensures Preceded(fields, Preceded([entry], rest)) == Preceded(fields + [entry], rest)
  {
    if rest.Some? {
      assert fields + ([entry] + rest.value) == fields + [entry] + rest.value;
    }
  }

  // When a name gives its key back.

  /** No segment of a field name between underscores reads as a direction. */
  predicate Plain(field: Text) {
    forall s :: s in Segments(field) ==> !IsDirection(s)
  }

  /** An entry a name can carry: a sort order, under a name no part of which looks like one. */
  predicate Recoverable(entry: KeyEntry) {
    !entry.direction.Special? && Plain(entry.field)
  }

  function Directions(tokens: seq<Text>): nat {
    if tokens == [] then 0 else (if IsDirection(tokens[0]) then 1 else 0) + Directions(tokens[1..])
  }

  lemma {:induction false} DirectionsAppend(a: seq<Text>, b: seq<Text>)
    ensures Directions(a + b) == Directions(a) + Directions(b)
  {
    if a == [] {
      assert a + b == b;
    } else {
      assert (a + b)[1..] == a[1..] + b;
      DirectionsAppend(a[1..], b);
    }
  }

  lemma {:induction false} PlainHasNone(tokens: seq<Text>)
    ensures Directions(tokens) == 0 <==> forall s :: s in tokens ==> !IsDirection(s)
  {
    if tokens != [] {
      PlainHasNone(tokens[1..]);
      assert forall s :: s in tokens <==> s == tokens[0] || s in tokens[1..];
    }
  }

  /** A key read from tokens has one entry for each direction among them, none of another kind. */
  lemma {:induction false} ReadKeyCounts(tokens: seq<Text>, current: seq<Text>)
    requires ReadKey(tokens, current).Some?
    ensures |ReadKey(tokens, current).value| == Directions(tokens)
    ensures forall e :: e in ReadKey(tokens, current).value ==> !e.direction.Special?
    decreases tokens
  {
    if tokens != [] {
      ReadKeyCounts(tokens[1..], if IsDirection(tokens[0]) then [] else current + [tokens[0]]);
    }
  }

  /** Tokens that are no directions only lengthen the open field. */
  lemma {:induction false} ReadPlain(plain: seq<Text>, rest: seq<Text>, current: seq<Text>)
    requires forall s :: s in plain ==> !IsDirection(s)
    ensures ReadKey(plain + rest, current) == ReadKey(rest, current + plain)
    decreases plain
  {
    if plain == [] {
      assert plain + rest == rest && current + plain == current;
    } else {
      assert (plain + rest)[0] == plain[0] && (plain + rest)[1..] == plain[1..] + rest;
      assert plain[0] in plain;
      ReadPlain(plain[1..], rest, current + [plain[0]]);
      assert current + [plain[0]] + plain[1..] == current + plain;
    }
  }

  function EntryTokens(entry: KeyEntry): seq<Text> {
    Segments(entry.field) + Segments(DirectionText(entry.direction))
  }

  /** The tokens of a key's name: each field's segments, then its direction's. */
  function KeyTokens(key: seq<KeyEntry>): seq<Text> {
    if key == [] then [] else EntryTokens(key[0]) + KeyTokens(key[1..])
  }

  lemma {:induction false} NameTokens(key: seq<KeyEntry>)
    requires key != []
    ensures Segments(GenerateIndexName(key)) == KeyTokens(key)
  {
    SegmentsAppend(key[0].field, DirectionText(key[0].direction));
    if |key| == 1 {
      assert KeyTokens(key[1..]) == [];
    } else {
      NameTokens(key[1..]);
      SegmentsAppend(EntryText(key[0]), GenerateIndexName(key[1..]));
    }
  }

  lemma EntryReads(entry: KeyEntry, rest: seq<Text>)
    requires Recoverable(entry)
    ensures ReadKey(EntryTokens(entry) + rest, []) == Preceded([entry], ReadKey(rest, []))
  {
    var name, direction := Segments(entry.field), DirectionText(entry.direction);
    OneSegment(direction);
    assert EntryTokens(entry) + rest == name + ([direction] + rest) && ([direction] + rest)[1..] == rest;
    ReadPlain(name, [direction] + rest, []);
    assert [] + name == name;
    JoinSegments(entry.field);
  }

  lemma {:induction false} RecoverableReads(key: seq<KeyEntry>)
    requires forall e :: e in key ==> Recoverable(e)
    ensures ReadKey(KeyTokens(key), []) == Some(key)
  {
    if key != [] {
      assert key[0] in key;
      RecoverableReads(key[1..]);
      EntryReads(key[0], KeyTokens(key[1..]));
      assert [key[0]] + key[1..] == key;
    }
  }

  /** Each entry of the sort orders brings a direction of its own and those its field name holds. */
  lemma {:induction false} DirectionsOfKey(key: seq<KeyEntry>)
    requires forall e :: e in key ==> !e.direction.Special?
    ensures Directions(KeyTokens(key)) >= |key|
    ensures (exists e :: e in key && !Plain(e.field)) ==> Directions(KeyTokens(key)) > |key|
  {
    if key != [] {
      var first := key[0];
      assert first in key;
      DirectionsOfKey(key[1..]);
      var name, direction := Segments(first.field), DirectionText(first.direction);
      OneSegment(direction);
      DirectionsAppend(EntryTokens(first), KeyTokens(key[1..]));
      DirectionsAppend(name, [direction]);
      PlainHasNone(name);
      assert [direction][1..] == [];
      assert forall e :: e in key <==> e == first || e in key[1..];
    }
  }

  /**
   * A generated name gives its key back, fields and directions in order, exactly
   * when every direction is a sort order and no field name has an underscore
   * segment reading `1` or `-1`.
   */
  lemma NameGivesKeyBack(key: seq<KeyEntry>)
    requires key != []
    ensures KeyOfTokens(Segments(GenerateIndexName(key))) == Some(key) <==> forall e :: e in key ==> Recoverable(e)
  {
    NameTokens(key);
    var tokens := KeyTokens(key);
    if forall e :: e in key ==> Recoverable(e) {
      RecoverableReads(key);
    } else if ReadKey(tokens, []).Some? {
      ReadKeyCounts(tokens, []);
      if forall e :: e in key ==> !e.direction.Special? {
        DirectionsOfKey(key);
      }
    }
  }

  /** Such a field name: the name of `{a_1: 1}` reads as nothing at all. */
  lemma DirectionInFieldName()
    ensures var a_1 := [97, UNDERSCORE, 49];
            KeyOfTokens(Segments(GenerateIndexName([KeyEntry(a_1, Ascending)]))) == None
  {
    var a_1: Text := [97, UNDERSCORE, 49];
    var key := [KeyEntry(a_1, Ascending)];
    NameTokens(key);
    OneSegment(ONE);
    assert a_1 == [97] + ([UNDERSCORE] + ONE);
    OneSegment([97]);
    SegmentsAppend([97], ONE);
    assert KeyTokens(key[1..]) == [];
    var tokens := [[97], ONE, ONE];
    assert KeyTokens(key) == tokens;
    assert tokens[1..] == [ONE, ONE] && [ONE, ONE][1..] == [ONE];
    assert ReadKey([ONE], []) == None;
    assert ReadKey([ONE, ONE], [] + [[97]]) == None;
  }
}
