/**
 * Quoted SurrealQL identifiers and printed record ids: writing them, and reading
 * back what the server printed.
 *
 * Text is a sequence of UTF-16 code units, as in the source language.
 */
module Identifiers {
  import opened Values

  /** A code unit, by its number. */
  type Unit = int

  type Text = seq<Unit>

  const BACKSLASH: Unit := 92
  const BACKTICK: Unit := 96
  const COLON: Unit := 58
  const OPEN_BRACE: Unit := 123
  const CLOSE_BRACE: Unit := 125
  const LETTER_S: Unit := 115
  const LETTER_U: Unit := 117
  const LEFT_ANGLE: Unit := 0x27E8
  const RIGHT_ANGLE: Unit := 0x27E9
  const MINUS: Unit := 45
  const ZERO: Unit := 48
  const SPACE: Unit := 32
  const SINGLE_QUOTE: Unit := 39
  const DOUBLE_QUOTE: Unit := 34

  // Escaping.

  /** `text` with every `unit` replaced by `replacement`. */
  function ReplaceAll(text: Text, unit: Unit, replacement: Text): Text {
    if text == [] then [] else (if text[0] == unit then replacement else [text[0]]) + ReplaceAll(text[1..], unit, replacement)
  }

  /** A name between backticks, backslashes and backticks in it escaped. */
  function EscapeIdentifier(name: Text): Text {
    [BACKTICK] + Escaped(name, BACKTICK) + [BACKTICK]
  }

  /** `name` with its backslashes and its `quote`s escaped. */
  function Escaped(name: Text, quote: Unit): Text {
    ReplaceAll(ReplaceAll(name, BACKSLASH, [BACKSLASH, BACKSLASH]), quote, [BACKSLASH, quote])
  }

  lemma {:induction false} ReplaceAllAppend(a: Text, b: Text, unit: Unit, replacement: Text)
    ensures ReplaceAll(a + b, unit, replacement) == ReplaceAll(a, unit, replacement) + ReplaceAll(b, unit, replacement)
  {
    if a == [] {
      assert a + b == b;
    } else {
      assert (a + b)[1..] == a[1..] + b;
      ReplaceAllAppend(a[1..], b, unit, replacement);
    }
  }

  predicate QuoteMark(u: Unit) {
    u in {BACKTICK, SINGLE_QUOTE, DOUBLE_QUOTE, RIGHT_ANGLE}
  }

  /** The two replacements together escape unit by unit. */
  lemma EscapedStep(name: Text, quote: Unit)
    requires name != [] && QuoteMark(quote)
    ensures Escaped(name, quote) ==
            (if name[0] == BACKSLASH || name[0] == quote then [BACKSLASH, name[0]] else [name[0]]) + Escaped(name[1..], quote)
  {
    var first := if name[0] == BACKSLASH then [BACKSLASH, BACKSLASH] else [name[0]];
    ReplaceAllAppend(first, ReplaceAll(name[1..], BACKSLASH, [BACKSLASH, BACKSLASH]), quote, [BACKSLASH, quote]);
    assert first[1..] == if name[0] == BACKSLASH then [BACKSLASH] else [];
    assert [BACKSLASH][1..] == [];
  }

  // Unescaping.

  function HexValue(u: Unit): Option<nat> {
    if 48 <= u <= 57 then Some(u - 48)
    else if 97 <= u <= 102 then Some(u - 87)
    else if 65 <= u <= 70 then Some(u - 55)
    else None
  }

  /** The number 1 to 6 hexadecimal digits stand for. */
  function HexNumber(digits: Text): Option<nat> {
    if |digits| == 0 || |digits| > 6 then None else HexDigits(digits)
  }

  function HexDigits(digits: Text): Option<nat> {
    if digits == [] then Some(0) else
    var front :- HexDigits(digits[..|digits| - 1]);
    var last :- HexValue(digits[|digits| - 1]);
    Some(16 * front + last)
  }

  /** The first place of `unit` at or after `from`, or the length when there is none. */
  function IndexFrom(text: Text, unit: Unit, from: nat): (i: nat)
    requires from <= |text|
    ensures from <= i <= |text|
    ensures i < |text| ==> text[i] == unit
    ensures forall j :: from <= j < i ==> text[j] != unit
    decreases |text| - from
  {
    if from == |text| || text[from] == unit then from else IndexFrom(text, unit, from + 1)
  }

  /** The code units of a code point. */
  function FromCodePoint(code: nat): Text
    requires code <= 0x10FFFF
  {
    if code < 0x1_0000 then [code] else [0xD800 + (code - 0x1_0000) / 0x400, 0xDC00 + (code - 0x1_0000) % 0x400]
  }

  datatype CodePointEscape = CodePointEscape(units: Text, end: nat)

  /** A `u{...}` or `uXXXX` escape's code point, its digits starting at `from`. */
  function ReadCodePoint(text: Text, from: nat): (r: Option<CodePointEscape>)
    ensures r.Some? ==> from <= r.value.end < |text|
  {
    if from >= |text| then None
    else if text[from] == OPEN_BRACE then
      var close := IndexFrom(text, CLOSE_BRACE, from + 1);
      if close == |text| then None else
      var code :- HexNumber(text[from + 1..close]);
      if code > 0x10FFFF then None else Some(CodePointEscape(FromCodePoint(code), close))
    else if from + 4 > |text| then None
    else
      var code :- HexNumber(text[from..from + 4]);
      if code > 0x10FFFF then None else Some(CodePointEscape(FromCodePoint(code), from + 3))
  }

  /** The single-unit escapes the server prints: `0`, `b`, `f`, `n`, `r`, `t`. */
  function ShortEscape(u: Unit): Unit {
    if u == 48 then 0 else if u == 98 then 8 else if u == 102 then 12
    else if u == 110 then 10 else if u == 114 then 13 else if u == 116 then 9 else u
  }

  /** What stands at place `i` of a quoted text, and the place after it. */
  function ReadUnit(text: Text, i: nat): (r: (Text, nat))
    requires i < |text|
    ensures i < r.1 <= |text|
  {
    if text[i] != BACKSLASH || i == |text| - 1 then ([text[i]], i + 1)
    else
      var point := if text[i + 1] == LETTER_U then ReadCodePoint(text, i + 2) else None;
      if point.Some? then (point.value.units, point.value.end + 1)
      else ([ShortEscape(text[i + 1])], i + 2)
  }

  /** The text a quoted text stands for, from place `i` on. */
  function Unescaped(text: Text, i: nat): Text
    requires i <= |text|
    decreases |text| - i
  {
    if i == |text| then [] else
    var (units, next) := ReadUnit(text, i);
    units + Unescaped(text, next)
  }

  /** The loop over a quoted text, with its shortcut for one holding no backslash. */
  method UnescapeSurrealString(text: Text) returns (out: Text)
    ensures out == Unescaped(text, 0)
  {
    if BACKSLASH !in text {
      NothingToUnescape(text, 0);
      assert text[0..] == text;
      return text;
    }
    out := [];
    var i := 0;
    while i < |text|
      invariant 0 <= i <= |text|
      invariant Unescaped(text, 0) == out + Unescaped(text, i)
    {
      ghost var done := out;
      ghost var (units, next) := ReadUnit(text, i);
      Reassociate(out, units, Unescaped(text, next));
      var unit := text[i];
      if unit != BACKSLASH || i == |text| - 1 {
        out := out + [unit];
        i := i + 1;
      } else {
        var escaped := text[i + 1];
        var point := None;
        if escaped == LETTER_U {
          point := ReadCodePoint(text, i + 2);
        }
        if point.Some? {
          out := out + point.value.units;
          i := point.value.end + 1;
        } else {
          out := out + [ShortEscape(escaped)];
          i := i + 2;
        }
      }
      assert i == next && out == done + units;
    }
  }

  lemma Reassociate(a: Text, b: Text, c: Text)
    ensures a + (b + c) == (a + b) + c
  {
  }

  lemma {:induction false} NothingToUnescape(text: Text, i: nat)
    requires i <= |text| && BACKSLASH !in text
    ensures Unescaped(text, i) == text[i..]
    decreases |text| - i
  {
    if i < |text| {
      NothingToUnescape(text, i + 1);
      assert text[i..] == [text[i]] + text[i + 1..];
    }
  }

  /** Unescaping inverts escaping, wherever the escaped text stands. */
  lemma {:induction false} UnescapeEscaped(name: Text, quote: Unit, text: Text, i: nat)
    requires QuoteMark(quote)
    requires i <= |text| && text[i..] == Escaped(name, quote)
    ensures Unescaped(text, i) == name
    decreases name
  {
    if name == [] {
      assert |text| == i;
    } else {
      EscapedStep(name, quote);
      var step := if name[0] == BACKSLASH || name[0] == quote then 2 else 1;
      assert text[i] == text[i..][0] == Escaped(name, quote)[0];
      if step == 2 {
        assert text[i + 1] == text[i..][1] == name[0];
      }
      assert text[i + step..] == text[i..][step..] == Escaped(name[1..], quote);
      UnescapeEscaped(name[1..], quote, text, i + step);
      assert ReadUnit(text, i) == ([name[0]], i + step);
    }
  }

  // Everything the server prints inside a quote.

  predicate HasLetter(u: Unit) {
    u == 0 || u == 8 || u == 9 || u == 10 || u == 12 || u == 13
  }

  /** The letter a control character is printed as. */
  function LetterOf(u: Unit): Unit {
    if u == 0 then 48 else if u == 8 then 98 else if u == 9 then 116
    else if u == 10 then 110 else if u == 12 then 102 else 114
  }

  predicate IsCodePoint(digits: Text) {
    HexNumber(digits).Some? && HexNumber(digits).value <= 0x10FFFF
  }

  /** Wherever `spelled` stands it is read, in one step, as `units`. */
  ghost predicate ReadsAs(spelled: Text, units: Text) {
    spelled != [] &&
    forall text: Text, i: nat {:trigger ReadUnit(text, i)} ::
      i + |spelled| <= |text| && text[i..i + |spelled|] == spelled ==> ReadUnit(text, i) == (units, i + |spelled|)
  }

  /** The code point a unit, or a surrogate pair, encodes. */
  function CodePointOf(units: Text): nat
    requires |units| == 1 ==> units[0] >= 0
    requires |units| == 2 ==> units[0] >= 0xD800 && units[1] >= 0xDC00
  {
    if |units| == 1 then units[0]
    else if |units| == 2 then 0x1_0000 + (units[0] - 0xD800) * 0x400 + (units[1] - 0xDC00)
    else 0
  }

  /** Past the first plane a code point becomes a high and a low surrogate that encode it. */
  lemma CodePointRoundTrip(code: nat)
    requires code <= 0x10FFFF
    ensures var units := FromCodePoint(code);
            |units| == (if code < 0x1_0000 then 1 else 2)
            && (|units| == 2 ==> 0xD800 <= units[0] < 0xDC00 && 0xDC00 <= units[1] < 0xE000)
            && CodePointOf(units) == code
  {
    if code >= 0x1_0000 {
      var rest := code - 0x1_0000;
      assert rest == rest / 0x400 * 0x400 + rest % 0x400;
    }
  }

  lemma {:induction false} HexHasNoBrace(digits: Text)
    requires HexDigits(digits).Some?
    ensures CLOSE_BRACE !in digits && (digits != [] ==> digits[0] != OPEN_BRACE)
  {
    if digits != [] {
      var last := digits[|digits| - 1];
      HexHasNoBrace(digits[..|digits| - 1]);
      assert HexValue(last).Some?;
      assert digits == digits[..|digits| - 1] + [last];
    }
  }

  lemma BracedReads(text: Text, i: nat, digits: Text)
    requires i + 4 + |digits| <= |text| && IsCodePoint(digits)
    requires text[i] == BACKSLASH && text[i + 1] == LETTER_U && text[i + 2] == OPEN_BRACE
    requires text[i + 3..i + 3 + |digits|] == digits && text[i + 3 + |digits|] == CLOSE_BRACE
    ensures ReadUnit(text, i) == (FromCodePoint(HexNumber(digits).value), i + 4 + |digits|)
  {
    HexHasNoBrace(digits);
    var close := IndexFrom(text, CLOSE_BRACE, i + 3);
    assert forall j :: i + 3 <= j < i + 3 + |digits| ==> text[j] == digits[j - (i + 3)];
    assert close == i + 3 + |digits|;
  }

  lemma FourDigitsRead(text: Text, i: nat, digits: Text)
    requires i + 6 <= |text| && |digits| == 4 && IsCodePoint(digits)
    requires text[i] == BACKSLASH && text[i + 1] == LETTER_U && text[i + 2..i + 6] == digits
    ensures ReadUnit(text, i) == (FromCodePoint(HexNumber(digits).value), i + 6)
  {
    HexHasNoBrace(digits);
    assert text[i + 2] == text[i + 2..i + 6][0] == digits[0];
  }

  /** A character other than a backslash stands for itself. */
  lemma PlainReads(u: Unit)
    requires u != BACKSLASH
    ensures ReadsAs([u], [u])
  {
    forall text: Text, i: nat | i + 1 <= |text| && text[i..i + 1] == [u]
      ensures ReadUnit(text, i) == ([u], i + 1)
    {
      assert text[i] == text[i..i + 1][0];
    }
  }

  lemma LetterReads(letter: Unit)
    requires letter != LETTER_U
    ensures ReadsAs([BACKSLASH, letter], [ShortEscape(letter)])
  {
    forall text: Text, i: nat | i + 2 <= |text| && text[i..i + 2] == [BACKSLASH, letter]
      ensures ReadUnit(text, i) == ([ShortEscape(letter)], i + 2)
    {
      assert text[i] == text[i..i + 2][0] && text[i + 1] == text[i..i + 2][1];
    }
  }

  /** The letter of a control character is read as that character. */
  lemma ControlReads(u: Unit)
    requires HasLetter(u)
    ensures ReadsAs([BACKSLASH, LetterOf(u)], [u])
  {
    LetterReads(LetterOf(u));
  }

  /** A quote or backslash escaped is read as itself. */
  lemma EscapeReads(u: Unit)
    requires u == BACKSLASH || QuoteMark(u)
    ensures ReadsAs([BACKSLASH, u], [u])
  {
    LetterReads(u);
  }

  lemma SliceOfSlice(text: Text, i: nat, n: nat, from: nat, to: nat)
    requires i + n <= |text| && from <= to <= n
    ensures text[i..i + n][from..to] == text[i + from..i + to]
  {
    var outer := text[i..i + n];
    assert forall k :: 0 <= k < n ==> outer[k] == text[i + k];
    assert forall k :: 0 <= k < to - from ==> outer[from..to][k] == outer[from + k] == text[i + from..i + to][k];
  }

  /** `\u{...}` is read as the code point its digits number. */
  lemma BracedReadsAs(digits: Text)
    requires IsCodePoint(digits)
    ensures ReadsAs([BACKSLASH, LETTER_U, OPEN_BRACE] + digits + [CLOSE_BRACE], FromCodePoint(HexNumber(digits).value))
  {
    var spelled := [BACKSLASH, LETTER_U, OPEN_BRACE] + digits + [CLOSE_BRACE];
    forall text: Text, i: nat | i + |spelled| <= |text| && text[i..i + |spelled|] == spelled
      ensures ReadUnit(text, i) == (FromCodePoint(HexNumber(digits).value), i + |spelled|)
    {
      assert text[i] == text[i..i + |spelled|][0] && text[i + 1] == text[i..i + |spelled|][1];
      assert text[i + 2] == text[i..i + |spelled|][2] && text[i + 3 + |digits|] == text[i..i + |spelled|][3 + |digits|];
      SliceOfSlice(text, i, |spelled|, 3, 3 + |digits|);
      assert spelled[3..3 + |digits|] == digits;
      BracedReads(text, i, digits);
    }
  }

  /** `\uXXXX` is read as the code point its digits number. */
  lemma FourDigitsReadAs(digits: Text)
    requires |digits| == 4 && IsCodePoint(digits)
    ensures ReadsAs([BACKSLASH, LETTER_U] + digits, FromCodePoint(HexNumber(digits).value))
  {
    forall text: Text, i: nat | i + 6 <= |text| && text[i..i + 6] == [BACKSLASH, LETTER_U] + digits
      ensures ReadUnit(text, i) == (FromCodePoint(HexNumber(digits).value), i + 6)
    {
      assert text[i] == text[i..i + 6][0] && text[i + 1] == text[i..i + 6][1];
      assert text[i + 2..i + 6] == text[i..i + 6][2..6] == digits;
      FourDigitsRead(text, i, digits);
    }
  }

  lemma SuffixSplits(text: Text, i: nat, a: Text, b: Text)
    requires i <= |text| && text[i..] == a + b
    ensures i + |a| <= |text| && text[i..i + |a|] == a && text[i + |a|..] == b
  {
    assert text[i..i + |a|] == text[i..][..|a|];
    assert text[i + |a|..] == text[i..][|a|..];
  }

  /** A stretch of quoted text and what it is read as. */
  datatype Spelled = Spelled(text: Text, units: Text)

  ghost predicate AllRead(ss: seq<Spelled>) {
    forall s :: s in ss ==> ReadsAs(s.text, s.units)
  }

  function SpelledText(ss: seq<Spelled>): Text {
    if ss == [] then [] else ss[0].text + SpelledText(ss[1..])
  }

  function StandText(ss: seq<Spelled>): Text {
    if ss == [] then [] else ss[0].units + StandText(ss[1..])
  }

  /** A marker term; see `Gives`. */
  predicate Looked(text: Text, n: nat) {
    true
  }

  /** Reading from place `i` on gives `out`; a trigger only `Look` mentions keeps the reading folded. */
  ghost predicate Gives(text: Text, i: nat, out: Text)
    requires i <= |text|
  {
    forall n: nat {:trigger Looked(text, n)} :: Looked(text, n) ==> Unescaped(text, i) == out
  }

  lemma Look(text: Text, i: nat, out: Text)
    requires i <= |text|
    ensures Gives(text, i, out) <==> Unescaped(text, i) == out
  {
    assert Looked(text, 0);
  }

  lemma OneRead(text: Text, i: nat)
    requires i < |text|
    ensures Gives(text, i, ReadUnit(text, i).0 + Unescaped(text, ReadUnit(text, i).1))
  {
    Look(text, i, ReadUnit(text, i).0 + Unescaped(text, ReadUnit(text, i).1));
  }

  lemma FirstSpelled(text: Text, i: nat, s: Spelled, rest: Text)
    requires ReadsAs(s.text, s.units) && i + |s.text| <= |text| && text[i..i + |s.text|] == s.text
    requires Gives(text, i + |s.text|, rest)
    ensures Gives(text, i, s.units + rest)
  {
    assert ReadUnit(text, i) == (s.units, i + |s.text|);
    Look(text, i + |s.text|, rest);
    OneRead(text, i);
  }

  lemma {:induction false} SpellingsGive(ss: seq<Spelled>, text: Text, i: nat)
    requires AllRead(ss) && i <= |text| && text[i..] == SpelledText(ss)
    ensures Gives(text, i, StandText(ss))
    decreases ss
  {
    if ss == [] {
      assert |text| == i;
      Look(text, i, []);
    } else {
      var first := ss[0];
      assert first in ss && forall s :: s in ss[1..] ==> s in ss;
      SuffixSplits(text, i, first.text, SpelledText(ss[1..]));
      SpellingsGive(ss[1..], text, i + |first.text|);
      FirstSpelled(text, i, first, StandText(ss[1..]));
    }
  }

  /** However the server spells a text, stretch by stretch, reading it gives the text. */
  lemma SpellingsRead(ss: seq<Spelled>)
    requires AllRead(ss)
    ensures Unescaped(SpelledText(ss), 0) == StandText(ss)
  {
    var text := SpelledText(ss);
    assert text[0..] == text;
    SpellingsGive(ss, text, 0);
    Look(text, 0, StandText(ss));
  }

  /** The ways the server prints a stretch of a text inside a quote. */
  datatype Stretch =
    | Itself(unit: Unit)
    | Slashed(unit: Unit)
    | ByLetter(unit: Unit)
    | Braced(digits: Text)
    | FourDigits(digits: Text)

  predicate IsPrinted(s: Stretch) {
    match s
    case Itself(u) => u != BACKSLASH
    case Slashed(u) => u == BACKSLASH || QuoteMark(u)
    case ByLetter(u) => HasLetter(u)
    case Braced(digits) => IsCodePoint(digits)
    case FourDigits(digits) => |digits| == 4 && IsCodePoint(digits)
  }

  /** How a stretch is printed, and the units of the text it stands for. */
  function SpellingOf(s: Stretch): Spelled
    requires IsPrinted(s)
  {
    match s
    case Itself(u) => Spelled([u], [u])
    case Slashed(u) => Spelled([BACKSLASH, u], [u])
    case ByLetter(u) => Spelled([BACKSLASH, LetterOf(u)], [u])
    case Braced(digits) => Spelled([BACKSLASH, LETTER_U, OPEN_BRACE] + digits + [CLOSE_BRACE], FromCodePoint(HexNumber(digits).value))
    case FourDigits(digits) => Spelled([BACKSLASH, LETTER_U] + digits, FromCodePoint(HexNumber(digits).value))
  }

  function Spellings(ss: seq<Stretch>): seq<Spelled>
    requires forall s :: s in ss ==> IsPrinted(s)
  {
    seq(|ss|, i requires 0 <= i < |ss| => SpellingOf(ss[i]))
  }

  lemma StretchReads(s: Stretch)
    requires IsPrinted(s)
    ensures ReadsAs(SpellingOf(s).text, SpellingOf(s).units)
  {
    match s
    case Itself(u) => PlainReads(u);
    case Slashed(u) => EscapeReads(u);
    case ByLetter(u) => ControlReads(u);
    case Braced(digits) => BracedReadsAs(digits);
    case FourDigits(digits) => FourDigitsReadAs(digits);
  }

  /** Whichever of these ways each stretch is printed in, reading the whole gives the text. */
  lemma PrintedTextReads(ss: seq<Stretch>)
    requires forall s :: s in ss ==> IsPrinted(s)
    ensures Unescaped(SpelledText(Spellings(ss)), 0) == StandText(Spellings(ss))
  {
    forall s | s in Spellings(ss)
      ensures ReadsAs(s.text, s.units)
    {
      var i :| 0 <= i < |ss| && s == SpellingOf(ss[i]);
      StretchReads(ss[i]);
    }
    SpellingsRead(Spellings(ss));
  }

  // Finding the closing quote.

  /** The first unescaped `close` at or after `from`, if there is one. */
  function FindClosing(text: Text, from: nat, close: Unit): (r: Option<nat>)
    ensures r.Some? ==> from <= r.value < |text| && text[r.value] == close
    decreases |text| - from
  {
    if from >= |text| then None
    else if text[from] == BACKSLASH then FindClosing(text, from + 2, close)
    else if text[from] == close then Some(from)
    else FindClosing(text, from + 1, close)
  }

  method FindClosingQuote(text: Text, from: nat, close: Unit) returns (found: Option<nat>)
    ensures found == FindClosing(text, from, close)
  {
    var i := from;
    while i < |text|
      invariant FindClosing(text, i, close) == FindClosing(text, from, close)
      decreases |text| - i
    {
      if text[i] == BACKSLASH {
        i := i + 2;
      } else if text[i] == close {
        return Some(i);
      } else {
        i := i + 1;
      }
    }
    found := None;
  }

  /** In an escaped name the first unescaped quote is the one after its end. */
  lemma {:induction false} ClosingIsFinal(name: Text, quote: Unit, text: Text, i: nat)
    requires QuoteMark(quote) && i + |Escaped(name, quote)| < |text|
    requires text[i..i + |Escaped(name, quote)|] == Escaped(name, quote) && text[i + |Escaped(name, quote)|] == quote
    ensures FindClosing(text, i, quote) == Some(i + |Escaped(name, quote)|)
    decreases name
  {
    if name != [] {
      EscapedStep(name, quote);
      var size := |Escaped(name, quote)|;
      var step := if name[0] == BACKSLASH || name[0] == quote then 2 else 1;
      assert text[i] == text[i..i + size][0] == Escaped(name, quote)[0];
      assert text[i + step..i + size] == text[i..i + size][step..] == Escaped(name[1..], quote);
      ClosingIsFinal(name[1..], quote, text, i + step);
    }
  }

  // Record ids.

  /** The `_id` values a record id can carry. */
  datatype MongoId = TextId(text: Text) | NumberId(number: int) | ObjectIdHex(hex: Text)

  datatype ParsedRecordId = ParsedRecordId(collection: Option<Text>, id: MongoId)

  predicate StartsWith(text: Text, unit: Unit) {
    |text| > 0 && text[0] == unit
  }

  predicate EndsWith(text: Text, unit: Unit) {
    |text| > 0 && text[|text| - 1] == unit
  }

  /** The quoted table a text starts with and what follows its colon. */
  function SplitQuoted(text: Text, open: Unit, close: Unit): Option<(Text, Text)> {
    if !StartsWith(text, open) then None else
    var end :- FindClosing(text, 1, close);
    if end + 1 < |text| && text[end + 1] == COLON then Some((Unescaped(text[1..end], 0), text[end + 2..])) else None
  }

  function SplitRecordId(text: Text): (Option<Text>, Text) {
    var quoted :=
      if StartsWith(text, BACKTICK) then SplitQuoted(text, BACKTICK, BACKTICK)
      else if StartsWith(text, LEFT_ANGLE) then SplitQuoted(text, LEFT_ANGLE, RIGHT_ANGLE)
      else None;
    if quoted.Some? then (Some(quoted.value.0), quoted.value.1) else
    var separator := IndexFrom(text, COLON, 0);
    if separator == |text| then (None, text) else (Some(text[..separator]), text[separator + 1..])
  }

  predicate IsDigit(u: Unit) {
    48 <= u <= 57
  }

  predicate AllDigits(text: Text) {
    forall u :: u in text ==> IsDigit(u)
  }

  function Magnitude(digits: Text): (n: nat)
    requires AllDigits(digits)
  {
    if digits == [] then 0 else
    assert IsDigit(digits[|digits| - 1]);
    10 * Magnitude(digits[..|digits| - 1]) + (digits[|digits| - 1] - 48)
  }

  /** A bare whole number: an optional minus sign and at least one digit. */
  function ReadInteger(text: Text): Option<int> {
    var negative := StartsWith(text, MINUS);
    var digits := if negative then text[1..] else text;
    if |digits| > 0 && AllDigits(digits) then var n: int := Magnitude(digits); Some(if negative then -n else n) else None
  }

  predicate IsSpace(u: Unit) {
    u == SPACE || 9 <= u <= 13 || 0x2000 <= u <= 0x200A ||
    u in {0xA0, 0x1680, 0x2028, 0x2029, 0x202F, 0x205F, 0x3000, 0xFEFF}
  }

  function SkipSpace(text: Text): (r: Text)
    ensures |r| <= |text|
  {
    if text != [] && IsSpace(text[0]) then SkipSpace(text[1..]) else text
  }

  predicate IsLowerHex(u: Unit) {
    48 <= u <= 57 || 97 <= u <= 102
  }

  predicate IsHex24(text: Text) {
    |text| == 24 && forall u :: u in text ==> IsLowerHex(u)
  }

  /** `$oid` between a pair of equal quotes. */
  function TagIn(quote: Unit): Text {
    [quote, 36, 111, 105, 100, quote]
  }

  function AfterPrefix(text: Text, prefix: Text): Option<Text> {
    if prefix <= text then Some(text[|prefix|..]) else None
  }

  /** What follows the opening brace, the tag and its colon. */
  function AfterTag(text: Text): Option<Text> {
    var body :- AfterPrefix(SkipSpace(text), [OPEN_BRACE]);
    var tagged := SkipSpace(body);
    var afterTag :- AfterPrefix(tagged, if TagIn(DOUBLE_QUOTE) <= tagged then TagIn(DOUBLE_QUOTE) else TagIn(SINGLE_QUOTE));
    var afterColon :- AfterPrefix(SkipSpace(afterTag), [COLON]);
    Some(SkipSpace(afterColon))
  }

  predicate IsQuote(u: Unit) {
    u == SINGLE_QUOTE || u == DOUBLE_QUOTE
  }

  /** The quoted hex a text starts with, when only the closing brace follows. */
  function HexLiteral(text: Text): Option<Text> {
    var quoted := if StartsWith(text, LETTER_S) then text[1..] else text;
    if |quoted| < 26 || !IsQuote(quoted[0]) || !IsQuote(quoted[25]) || !IsHex24(quoted[1..25]) then None else
    var rest :- AfterPrefix(SkipSpace(quoted[26..]), [CLOSE_BRACE]);
    if SkipSpace(rest) == [] then Some(quoted[1..25]) else None
  }

  /** The hex of a printed stored ObjectId such as `{ "$oid": '...' }`. */
  function PrintedObjectId(text: Text): Option<Text> {
    var literal :- AfterTag(text);
    HexLiteral(literal)
  }

  function ParseIdPart(text: Text): MongoId {
    if |text| > 1 && StartsWith(text, BACKTICK) && EndsWith(text, BACKTICK) then TextId(Unescaped(text[1..|text| - 1], 0))
    else if |text| > 1 && StartsWith(text, LEFT_ANGLE) && EndsWith(text, RIGHT_ANGLE) then TextId(Unescaped(text[1..|text| - 1], 0))
    else
      var hex := PrintedObjectId(text);
      if hex.Some? then ObjectIdHex(hex.value) else
      var number := ReadInteger(text);
      if number.Some? then NumberId(number.value) else TextId(text)
  }

  function ParseRecordId(text: Text): ParsedRecordId {
    var (collection, idPart) := SplitRecordId(text);
    ParsedRecordId(collection, ParseIdPart(idPart))
  }

  // How the server prints an id part.

  function Digits(n: nat): (d: Text)
    ensures |d| > 0 && AllDigits(d)
  {
    if n < 10 then [48 + n] else Digits(n / 10) + [48 + n % 10]
  }

  function PrintInteger(n: int): Text {
    if n < 0 then [MINUS] + Digits(-n) else Digits(n)
  }

  /** The quoted hex and the closing brace of a printed ObjectId. */
  function PrintLiteral(hex: Text): Text {
    [SINGLE_QUOTE] + hex + [SINGLE_QUOTE, SPACE, CLOSE_BRACE]
  }

  /** `{ "$oid": '<hex>' }`. */
  function PrintObjectId(hex: Text): Text {
    [OPEN_BRACE] + ([SPACE] + (TagIn(DOUBLE_QUOTE) + ([COLON] + ([SPACE] + PrintLiteral(hex)))))
  }

  /** The ways a name or a string id is printed: in either quote, or bare. */
  datatype Style = InBackticks | InAngles | Unquoted

  function PrintText(text: Text, style: Style): Text {
    match style
    case InBackticks => EscapeIdentifier(text)
    case InAngles => [LEFT_ANGLE] + Escaped(text, RIGHT_ANGLE) + [RIGHT_ANGLE]
    case Unquoted => text
  }

  /** Numbers are never quoted, ObjectIds are printed in their stored form. */
  function PrintId(id: MongoId, style: Style): Text {
    match id
    case TextId(text) => PrintText(text, style)
    case NumberId(n) => PrintInteger(n)
    case ObjectIdHex(hex) => PrintObjectId(hex)
  }

  predicate IsWordUnit(u: Unit) {
    IsDigit(u) || 65 <= u <= 90 || 97 <= u <= 122 || u == 95
  }

  /** A string id the server may print bare: letters, digits and underscores, not digits alone. */
  predicate IsWord(text: Text) {
    (forall u :: u in text ==> IsWordUnit(u)) && exists u :: u in text && !IsDigit(u)
  }

  predicate WellFormedId(id: MongoId) {
    id.ObjectIdHex? ==> IsHex24(id.hex)
  }

  /** A table name the server prints bare: no quote in front and no colon anywhere. */
  predicate PrintsBare(table: Text) {
    table != [] && table[0] != BACKTICK && table[0] != LEFT_ANGLE && COLON !in table
  }

  // Round trips.

  lemma QuotedTableSplits(table: Text, open: Unit, close: Unit, rest: Text)
    requires QuoteMark(close)
    ensures SplitQuoted([open] + Escaped(table, close) + [close] + [COLON] + rest, open, close) == Some((table, rest))
  {
    var text := [open] + Escaped(table, close) + [close] + [COLON] + rest;
    var size := |Escaped(table, close)|;
    assert text[1..1 + size] == Escaped(table, close);
    assert text[1 + size] == close && text[2 + size] == COLON;
    ClosingIsFinal(table, close, text, 1);
    assert text[1 + size + 2..] == rest;
    assert Escaped(table, close)[0..] == Escaped(table, close);
    UnescapeEscaped(table, close, Escaped(table, close), 0);
  }

  lemma BareTableSplits(table: Text, rest: Text)
    requires PrintsBare(table)
    ensures SplitRecordId(table + [COLON] + rest) == (Some(table), rest)
  {
    var text := table + [COLON] + rest;
    assert text[0] == table[0];
    var separator := IndexFrom(text, COLON, 0);
    assert text[|table|] == COLON;
    assert forall i :: 0 <= i < |table| ==> text[i] == table[i] && table[i] in table;
    assert text[..|table|] == table && text[|table| + 1..] == rest;
  }

  lemma QuotedIdParses(text: Text, open: Unit, close: Unit)
    requires QuoteMark(close)
    ensures var printed := [open] + Escaped(text, close) + [close];
            Unescaped(printed[1..|printed| - 1], 0) == text
  {
    var printed := [open] + Escaped(text, close) + [close];
    assert printed[1..|printed| - 1] == Escaped(text, close);
    assert Escaped(text, close)[0..] == Escaped(text, close);
    UnescapeEscaped(text, close, Escaped(text, close), 0);
  }

  /** A bare word is no number and no printed ObjectId. */
  lemma WordParses(text: Text)
    requires IsWord(text)
    ensures ParseIdPart(text) == TextId(text)
  {
    var u :| u in text && !IsDigit(u);
    assert text != [] && text[0] in text;
    assert SkipSpace(text) == text;
    assert ReadInteger(text).None?;
  }

  lemma TextParses(text: Text, style: Style)
    requires style.Unquoted? ==> IsWord(text)
    ensures ParseIdPart(PrintText(text, style)) == TextId(text)
  {
    match style
    case InBackticks => QuotedIdParses(text, BACKTICK, BACKTICK);
    case InAngles => QuotedIdParses(text, LEFT_ANGLE, RIGHT_ANGLE);
    case Unquoted => WordParses(text);
  }

  lemma {:induction false} DigitsRead(n: nat)
    ensures Magnitude(Digits(n)) == n
  {
    var d := Digits(n);
    if n >= 10 {
      DigitsRead(n / 10);
      assert d[..|d| - 1] == Digits(n / 10);
    } else {
      assert d[..0] == [];
    }
  }

  lemma IntegerReads(n: int)
    ensures ReadInteger(PrintInteger(n)) == Some(n)
    ensures PrintInteger(n)[0] == MINUS || IsDigit(PrintInteger(n)[0])
    ensures IsDigit(PrintInteger(n)[|PrintInteger(n)| - 1])
  {
    var text := PrintInteger(n);
    var digits := Digits(if n < 0 then -n else n);
    DigitsRead(if n < 0 then -n else n);
    assert n < 0 ==> text[1..] == digits;
    assert digits[0] in digits && digits[|digits| - 1] in digits;
    assert text[|text| - 1] == digits[|digits| - 1];
  }

  lemma IntegerParses(n: int)
    ensures ParseIdPart(PrintInteger(n)) == NumberId(n)
  {
    IntegerReads(n);
    assert SkipSpace(PrintInteger(n)) == PrintInteger(n);
  }

  lemma SpaceSkipped(text: Text)
    requires text != [] && !IsSpace(text[0])
    ensures SkipSpace(text) == text && SkipSpace([SPACE] + text) == text
  {
    assert ([SPACE] + text)[1..] == text;
  }

  lemma PrefixRead(prefix: Text, text: Text)
    ensures AfterPrefix(prefix + text, prefix) == Some(text)
  {
  }

  lemma TagRead(hex: Text)
    ensures AfterTag(PrintObjectId(hex)) == Some(PrintLiteral(hex))
  {
    var literal, tag := PrintLiteral(hex), TagIn(DOUBLE_QUOTE);
    SpaceSkipped(literal);
    var afterTag := [COLON] + ([SPACE] + literal);
    SpaceSkipped(afterTag);
    PrefixRead([COLON], [SPACE] + literal);
    var tagged := tag + afterTag;
    SpaceSkipped(tagged);
    PrefixRead(tag, afterTag);
    var text := [OPEN_BRACE] + ([SPACE] + tagged);
    SpaceSkipped(text);
    PrefixRead([OPEN_BRACE], [SPACE] + tagged);
  }

  lemma ObjectIdParses(hex: Text)
    requires IsHex24(hex)
    ensures ParseIdPart(PrintObjectId(hex)) == ObjectIdHex(hex)
  {
    TagRead(hex);
    var literal := PrintLiteral(hex);
    assert literal[1..25] == hex && literal[26..] == [SPACE] + [CLOSE_BRACE];
    SpaceSkipped([CLOSE_BRACE]);
    PrefixRead([CLOSE_BRACE], []);
    assert [CLOSE_BRACE] + [] == [CLOSE_BRACE];
  }

  lemma IdParses(id: MongoId, style: Style)
    requires WellFormedId(id) && (id.TextId? && style.Unquoted? ==> IsWord(id.text))
    ensures ParseIdPart(PrintId(id, style)) == id
  {
    match id
    case TextId(text) => TextParses(text, style);
    case NumberId(n) => IntegerParses(n);
    case ObjectIdHex(hex) => ObjectIdParses(hex);
  }

  lemma TableSplits(table: Text, style: Style, rest: Text)
    requires style.Unquoted? ==> PrintsBare(table)
    ensures SplitRecordId(PrintText(table, style) + [COLON] + rest) == (Some(table), rest)
  {
    match style
    case InBackticks => QuotedTableSplits(table, BACKTICK, BACKTICK, rest);
    case InAngles => QuotedTableSplits(table, LEFT_ANGLE, RIGHT_ANGLE, rest);
    case Unquoted => BareTableSplits(table, rest);
  }

  /**
   * Reading a printed record id recovers the table and the id it names, whatever
   * characters either holds and however each is quoted: a string of digits comes back
   * a string, a number a number, and an id holding colons loses none of its segments.
   */
  lemma RecordIdRoundTrip(table: Text, tableStyle: Style, id: MongoId, idStyle: Style)
    requires WellFormedId(id)
    requires tableStyle.Unquoted? ==> PrintsBare(table)
    requires id.TextId? && idStyle.Unquoted? ==> IsWord(id.text)
    ensures ParseRecordId(PrintText(table, tableStyle) + [COLON] + PrintId(id, idStyle)) == ParsedRecordId(Some(table), id)
  {
    IdParses(id, idStyle);
    TableSplits(table, tableStyle, PrintId(id, idStyle));
  }

  /** Escaping and unescaping are inverse on every text, and the last backtick closes the quote. */
  lemma IdentifierRoundTrip(name: Text)
    ensures Unescaped(EscapeIdentifier(name)[1..|EscapeIdentifier(name)| - 1], 0) == name
    ensures FindClosing(EscapeIdentifier(name), 1, BACKTICK) == Some(|EscapeIdentifier(name)| - 1)
  {
    var quoted := EscapeIdentifier(name);
    assert quoted[1..|quoted| - 1] == Escaped(name, BACKTICK);
    assert quoted[1..1 + |Escaped(name, BACKTICK)|] == Escaped(name, BACKTICK);
    assert Escaped(name, BACKTICK)[0..] == Escaped(name, BACKTICK);
    UnescapeEscaped(name, BACKTICK, Escaped(name, BACKTICK), 0);
    ClosingIsFinal(name, BACKTICK, quoted, 1);
  }

  // Field paths.

  const DOT: Unit := 46
  const OPEN_BRACKET: Unit := 91
  const CLOSE_BRACKET: Unit := 93

  predicate IsArrayIndex(segment: Text) {
    segment != [] && AllDigits(segment)
  }

  /** One segment after the first: an array index in brackets, else `.` and a quoted name. */
  function EscapeSegment(segment: Text): Text {
    if IsArrayIndex(segment) then [OPEN_BRACKET] + segment + [CLOSE_BRACKET] else [DOT] + EscapeIdentifier(segment)
  }

  /** The segments from place `i` on, each after its separator. */
  function EscapeSegments(segments: seq<Text>, i: nat): Text
    requires i <= |segments|
    decreases |segments| - i
  {
    if i == |segments| then [] else EscapeSegment(segments[i]) + EscapeSegments(segments, i + 1)
  }

  /** Each segment escaped on its own; a leading number is a name. */
  method EscapeFieldPath(segments: seq<Text>) returns (path: Text)
    requires segments != []
    ensures path == EscapeIdentifier(segments[0]) + EscapeSegments(segments, 1)
  {
    path := [];
    ghost var whole := EscapeIdentifier(segments[0]) + EscapeSegments(segments, 1);
    var i := 0;
    while i < |segments|
      invariant 0 <= i <= |segments|
      invariant i == 0 ==> path == []
      invariant i > 0 ==> path + EscapeSegments(segments, i) == whole
    {
      ghost var done := path;
      if i > 0 && IsArrayIndex(segments[i]) {
        path := path + ([OPEN_BRACKET] + segments[i] + [CLOSE_BRACKET]);
      } else if i == 0 {
        path := EscapeIdentifier(segments[i]);
      } else {
        path := path + ([DOT] + EscapeIdentifier(segments[i]));
      }
      if i > 0 {
        assert path == done + EscapeSegment(segments[i]);
        Reassociate(done, EscapeSegment(segments[i]), EscapeSegments(segments, i + 1));
      }
      i := i + 1;
    }
  }

  /** Reads the segments back from an escaped path: how the server sees it. */
  function ReadSegments(text: Text): Option<seq<Text>>
    decreases |text|
  {
    if text == [] then Some([])
    else if text[0] == OPEN_BRACKET then
      var close := IndexFrom(text, CLOSE_BRACKET, 1);
      if close == |text| then None else
      var rest :- ReadSegments(text[close + 1..]);
      Some([text[1..close]] + rest)
    else if |text| > 1 && text[0] == DOT && text[1] == BACKTICK then
      var close :- FindClosing(text, 2, BACKTICK);
      var rest :- ReadSegments(text[close + 1..]);
      Some([Unescaped(text[2..close], 0)] + rest)
    else None
  }

  lemma NameReads(name: Text, rest: Text)
    ensures ReadSegments([DOT] + EscapeIdentifier(name) + rest) ==
            Prepend(name, ReadSegments(rest))
  {
    var text, size := [DOT] + EscapeIdentifier(name) + rest, |Escaped(name, BACKTICK)|;
    assert text == [DOT, BACKTICK] + Escaped(name, BACKTICK) + [BACKTICK] + rest;
    assert text[2..2 + size] == Escaped(name, BACKTICK) && text[2 + size] == BACKTICK;
    ClosingIsFinal(name, BACKTICK, text, 2);
    assert text[3 + size..] == rest;
    assert Escaped(name, BACKTICK)[0..] == Escaped(name, BACKTICK);
    UnescapeEscaped(name, BACKTICK, Escaped(name, BACKTICK), 0);
  }

  lemma IndexReads(index: Text, rest: Text)
    requires AllDigits(index)
    ensures ReadSegments([OPEN_BRACKET] + index + [CLOSE_BRACKET] + rest) ==
            Prepend(index, ReadSegments(rest))
  {
    var text := [OPEN_BRACKET] + index + [CLOSE_BRACKET] + rest;
    assert forall j :: 1 <= j <= |index| ==> text[j] == index[j - 1] && index[j - 1] in index;
    assert text[|index| + 1] == CLOSE_BRACKET;
    assert IndexFrom(text, CLOSE_BRACKET, 1) == |index| + 1;
    assert text[1..|index| + 1] == index && text[|index| + 2..] == rest;
  }

  /** What reading one more segment gives. */
  function Prepend(first: Text, rest: Option<seq<Text>>): Option<seq<Text>> {
    if rest.Some? then Some([first] + rest.value) else None
  }

  lemma SegmentReads(segment: Text, rest: Text)
    ensures ReadSegments(EscapeSegment(segment) + rest) == Prepend(segment, ReadSegments(rest))
  {
    if IsArrayIndex(segment) {
      IndexReads(segment, rest);
    } else {
      NameReads(segment, rest);
    }
  }

  lemma {:induction false} SegmentsRead(segments: seq<Text>, i: nat)
    requires i <= |segments|
    ensures ReadSegments(EscapeSegments(segments, i)) == Some(segments[i..])
    decreases |segments| - i
  {
    if i < |segments| {
      SegmentsRead(segments, i + 1);
      var rest := EscapeSegments(segments, i + 1);
      SegmentReads(segments[i], rest);
      assert EscapeSegments(segments, i) == EscapeSegment(segments[i]) + rest;
      assert [segments[i]] + segments[i + 1..] == segments[i..];
    } else {
      assert segments[i..] == [];
    }
  }

  /** The escaped path still names the same segments, one by one. */
  lemma FieldPathKeepsSegments(segments: seq<Text>)
    requires segments != []
    ensures ReadSegments([DOT] + EscapeIdentifier(segments[0]) + EscapeSegments(segments, 1)) == Some(segments)
  {
    SegmentsRead(segments, 1);
    NameReads(segments[0], EscapeSegments(segments, 1));
    assert [segments[0]] + segments[1..] == segments;
  }
}
