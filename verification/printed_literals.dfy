/**
 * The values a unique-index failure names: splitting the printed list at its
 * top-level commas and reading each literal back.
 */
module PrintedLiterals {
  import opened Values
  import opened Identifiers

  const COMMA: Unit := 44

  // Scanning.

  /** Where a scan is: the quote it is inside, how deep, and after a backslash or not. */
  datatype Place = Place(quote: Option<Unit>, depth: int, escaped: bool)

  /** The place after `u`, and whether `u` separates two elements. */
  function Advance(at: Place, u: Unit): (Place, bool) {
    if at.quote.Some? then
      if at.escaped then (at.(escaped := false), false)
      else if u == BACKSLASH then (at.(escaped := true), false)
      else if u == at.quote.value then (at.(quote := None), false)
      else (at, false)
    else if IsQuote(u) then (at.(quote := Some(u)), false)
    else
      var depth := at.depth + (if u == OPEN_BRACE || u == OPEN_BRACKET then 1 else if u == CLOSE_BRACE || u == CLOSE_BRACKET then -1 else 0);
      (at.(depth := depth), u == COMMA && depth == 0)
  }

  class ScanState {
    var quote: Option<Unit>
    var depth: int
    var escaped: bool

    constructor ()
      ensures At() == Place(None, 0, false)
    {
      quote, depth, escaped := None, 0, false;
    }

    ghost function At(): Place
      reads this
    {
      Place(quote, depth, escaped)
    }

    /** Moves over `u` and says whether it separates two elements. */
    method IsSeparator(u: Unit) returns (separates: bool)
      modifies this
      ensures (At(), separates) == Advance(old(At()), u)
    {
      if quote.Some? {
        if escaped {
          escaped := false;
          return false;
        }
        if u == BACKSLASH {
          escaped := true;
          return false;
        }
        if u == quote.value {
          quote := None;
        }
        return false;
      }
      if u == SINGLE_QUOTE || u == DOUBLE_QUOTE {
        quote := Some(u);
        return false;
      }
      if u == OPEN_BRACE || u == OPEN_BRACKET {
        depth := depth + 1;
      }
      if u == CLOSE_BRACE || u == CLOSE_BRACKET {
        depth := depth - 1;
      }
      separates := u == COMMA && depth == 0;
    }
  }

  /** A scan under way: its place, the element being read and those already split off. */
  datatype Scan = Scan(at: Place, current: Text, parts: seq<Text>)

  function Step(scan: Scan, u: Unit): Scan {
    var (at, separates) := Advance(scan.at, u);
    if separates then Scan(at, [], scan.parts + [scan.current]) else Scan(at, scan.current + [u], scan.parts)
  }

  function Run(scan: Scan, text: Text): Scan
    decreases text
  {
    if text == [] then scan else Run(Step(scan, text[0]), text[1..])
  }

  predicate Blank(text: Text) {
    forall u :: u in text ==> IsSpace(u)
  }

  const START := Scan(Place(None, 0, false), [], [])

  /** The last element counts unless it is blank. */
  function Finish(scan: Scan): seq<Text> {
    if Blank(scan.current) then scan.parts else scan.parts + [scan.current]
  }

  method SplitTopLevel(text: Text) returns (parts: seq<Text>)
    ensures parts == Finish(Run(START, text))
  {
    var state := new ScanState();
    parts := [];
    var current := [];
    var i := 0;
    while i < |text|
      invariant 0 <= i <= |text|
      invariant Run(Scan(state.At(), current, parts), text[i..]) == Run(START, text)
    {
      ghost var before := Scan(state.At(), current, parts);
      assert text[i..][1..] == text[i + 1..];
      var separates := state.IsSeparator(text[i]);
      if separates {
        parts := parts + [current];
        current := [];
      } else {
        current := current + [text[i]];
      }
      assert Scan(state.At(), current, parts) == Step(before, text[i]);
      i := i + 1;
    }
    var trimmed := TrimStart(current);
    TrimmedBlank(current);
    if trimmed != [] {
      parts := parts + [current];
    }
  }

  lemma {:induction false} RunAppend(scan: Scan, a: Text, b: Text)
    ensures Run(scan, a + b) == Run(Run(scan, a), b)
    decreases a
  {
    if a == [] {
      assert a + b == b;
    } else {
      assert (a + b)[1..] == a[1..] + b;
      RunAppend(Step(scan, a[0]), a[1..], b);
    }
  }

  // Literals.

  /** A literal, piece by piece: bare characters, quoted strings, objects and lists. */
  datatype Piece =
    | Bare(unit: Unit)
    | Quoted(quote: Unit, body: Text)
    | Group(open: Unit, pieces: seq<Piece>, close: Unit)

  function PrintPiece(p: Piece): Text {
    match p
    case Bare(u) => [u]
    case Quoted(quote, body) => [quote] + (body + [quote])
    case Group(open, pieces, close) => [open] + (PrintPieces(pieces) + [close])
  }

  function PrintPieces(pieces: seq<Piece>): Text {
    if pieces == [] then [] else PrintPiece(pieces[0]) + PrintPieces(pieces[1..])
  }

  /** No quote in `body` stands unescaped and no backslash is left over. */
  predicate QuotedBody(body: Text, quote: Unit) {
    if body == [] then true
    else if body[0] == BACKSLASH then |body| > 1 && QuotedBody(body[2..], quote)
    else body[0] != quote && QuotedBody(body[1..], quote)
  }

  predicate Structural(u: Unit) {
    IsQuote(u) || u in {OPEN_BRACE, CLOSE_BRACE, OPEN_BRACKET, CLOSE_BRACKET}
  }

  predicate WellFormed(p: Piece) {
    match p
    case Bare(u) => !Structural(u)
    case Quoted(quote, body) => IsQuote(quote) && QuotedBody(body, quote)
    case Group(open, pieces, close) =>
      open in {OPEN_BRACE, OPEN_BRACKET} && close in {CLOSE_BRACE, CLOSE_BRACKET} && forall q :: q in pieces ==> WellFormed(q)
  }

  /** One element of a list: well-formed pieces, no comma of its own outside them. */
  predicate IsLiteral(pieces: seq<Piece>) {
    forall p :: p in pieces ==> WellFormed(p) && p != Bare(COMMA)
  }

  function Outside(depth: int): Place {
    Place(None, depth, false)
  }

  /** A scan over the inside of a quoted string splits nothing and stays inside. */
  lemma {:induction false} BodyScans(body: Text, quote: Unit, depth: int, current: Text, parts: seq<Text>)
    requires QuotedBody(body, quote)
    ensures Run(Scan(Place(Some(quote), depth, false), current, parts), body) == Scan(Place(Some(quote), depth, false), current + body, parts)
    decreases body
  {
    if body == [] {
      assert current + body == current;
    } else if body[0] == BACKSLASH {
      var inside := Scan(Place(Some(quote), depth, false), current, parts);
      assert body[1..][0] == body[1] && body[1..][1..] == body[2..];
      assert Run(inside, body) == Run(Step(Step(inside, body[0]), body[1]), body[2..]);
      BodyScans(body[2..], quote, depth, current + [body[0]] + [body[1]], parts);
      assert current + [body[0]] + [body[1]] + body[2..] == current + body;
    } else {
      BodyScans(body[1..], quote, depth, current + [body[0]], parts);
      assert current + [body[0]] + body[1..] == current + body;
    }
  }

  /** A scan over a piece splits nothing and comes out where it went in. */
  lemma {:induction false} PieceScans(p: Piece, depth: nat, current: Text, parts: seq<Text>)
    requires WellFormed(p) && (depth > 0 || p != Bare(COMMA))
    ensures Run(Scan(Outside(depth), current, parts), PrintPiece(p)) == Scan(Outside(depth), current + PrintPiece(p), parts)
    decreases p, 0
  {
    match p
    case Bare(u) =>
      OneStep(Scan(Outside(depth), current, parts), u);
    case Quoted(quote, body) =>
      QuotedScans(quote, body, depth, current, parts);
    case Group(open, pieces, close) =>
      PiecesScan(pieces, depth + 1, current + [open], parts);
      GroupScans(open, PrintPieces(pieces), close, depth, current, parts);
  }

  lemma QuotedScans(quote: Unit, body: Text, depth: nat, current: Text, parts: seq<Text>)
    requires IsQuote(quote) && QuotedBody(body, quote)
    ensures Run(Scan(Outside(depth), current, parts), [quote] + (body + [quote])) ==
            Scan(Outside(depth), current + ([quote] + (body + [quote])), parts)
  {
    var start := Scan(Outside(depth), current, parts);
    OneStep(start, quote);
    RunAppend(start, [quote], body + [quote]);
    BodyScans(body, quote, depth, current + [quote], parts);
    RunAppend(Step(start, quote), body, [quote]);
    OneStep(Scan(Place(Some(quote), depth, false), current + [quote] + body, parts), quote);
    assert current + [quote] + body + [quote] == current + ([quote] + (body + [quote]));
  }

  lemma GroupScans(open: Unit, inner: Text, close: Unit, depth: nat, current: Text, parts: seq<Text>)
    requires open in {OPEN_BRACE, OPEN_BRACKET} && close in {CLOSE_BRACE, CLOSE_BRACKET}
    requires Run(Scan(Outside(depth + 1), current + [open], parts), inner) == Scan(Outside(depth + 1), current + [open] + inner, parts)
    ensures Run(Scan(Outside(depth), current, parts), [open] + (inner + [close])) ==
            Scan(Outside(depth), current + ([open] + (inner + [close])), parts)
  {
    var start := Scan(Outside(depth), current, parts);
    OneStep(start, open);
    RunAppend(start, [open], inner + [close]);
    RunAppend(Step(start, open), inner, [close]);
    OneStep(Scan(Outside(depth + 1), current + [open] + inner, parts), close);
    assert current + [open] + inner + [close] == current + ([open] + (inner + [close]));
  }

  lemma OneStep(scan: Scan, u: Unit)
    ensures Run(scan, [u]) == Step(scan, u)
  {
    assert [u][1..] == [];
  }

  lemma {:induction false} PiecesScan(pieces: seq<Piece>, depth: nat, current: Text, parts: seq<Text>)
    requires forall p :: p in pieces ==> WellFormed(p) && (depth > 0 || p != Bare(COMMA))
    ensures Run(Scan(Outside(depth), current, parts), PrintPieces(pieces)) == Scan(Outside(depth), current + PrintPieces(pieces), parts)
    decreases pieces
  {
    if pieces == [] {
      assert current + PrintPieces(pieces) == current;
    } else {
      var first, rest := PrintPiece(pieces[0]), PrintPieces(pieces[1..]);
      assert pieces[0] in pieces && forall p :: p in pieces[1..] ==> p in pieces;
      PieceScans(pieces[0], depth, current, parts);
      PiecesScan(pieces[1..], depth, current + first, parts);
      RunAppend(Scan(Outside(depth), current, parts), first, rest);
      Reassociate(current, first, rest);
    }
  }

  // Printing a list and splitting it.

  /** A scan over `text` from outside every quote and bracket comes out there and splits nothing. */
  ghost predicate Whole(text: Text) {
    forall current, parts :: Run(Scan(Outside(0), current, parts), text) == Scan(Outside(0), current + text, parts)
  }

  lemma LiteralIsWhole(pieces: seq<Piece>)
    requires IsLiteral(pieces)
    ensures Whole(PrintPieces(pieces))
  {
    forall current, parts
      ensures Run(Scan(Outside(0), current, parts), PrintPieces(pieces)) == Scan(Outside(0), current + PrintPieces(pieces), parts)
    {
      PiecesScan(pieces, 0, current, parts);
    }
  }

  function Commas(texts: seq<Text>): Text {
    if texts == [] then [] else if |texts| == 1 then texts[0] else texts[0] + ([COMMA] + Commas(texts[1..]))
  }

  /** One element and the comma after it become one part. */
  lemma ElementScans(element: Text, rest: Text, parts: seq<Text>)
    requires Whole(element)
    ensures Run(Scan(Outside(0), [], parts), element + ([COMMA] + rest)) == Run(Scan(Outside(0), [], parts + [element]), rest)
  {
    var start, middle := Scan(Outside(0), [], parts), Scan(Outside(0), element, parts);
    LastScans(element, parts);
    RunAppend(start, element, [COMMA] + rest);
    RunAppend(middle, [COMMA], rest);
    OneStep(middle, COMMA);
  }

  /** The element after the last comma stays the current text. */
  lemma LastScans(element: Text, parts: seq<Text>)
    requires Whole(element)
    ensures Run(Scan(Outside(0), [], parts), element) == Scan(Outside(0), element, parts)
  {
    assert Run(Scan(Outside(0), [], parts), element) == Scan(Outside(0), [] + element, parts);
    assert [] + element == element;
  }

  /** Scanning the printed list splits off every element but the last. */
  predicate Splits(texts: seq<Text>, parts: seq<Text>)
    requires texts != []
  {
    var splits := Run(Scan(Outside(0), [], parts), Commas(texts)) == Scan(Outside(0), texts[|texts| - 1], parts + texts[..|texts| - 1]);
    splits
  }

  lemma OneSplits(texts: seq<Text>, parts: seq<Text>)
    requires |texts| == 1 && Whole(texts[0])
    ensures Splits(texts, parts)
  {
    LastScans(texts[0], parts);
    assert parts + texts[..0] == parts;
  }

  lemma MoreSplits(texts: seq<Text>, parts: seq<Text>)
    requires |texts| > 1 && Whole(texts[0]) && Splits(texts[1..], parts + [texts[0]])
    ensures Splits(texts, parts)
  {
    ElementScans(texts[0], Commas(texts[1..]), parts);
    FirstPart(texts, parts);
  }

  lemma {:induction false} ListScans(texts: seq<Text>, parts: seq<Text>)
    requires texts != [] && forall t :: t in texts ==> Whole(t)
    ensures Splits(texts, parts)
    decreases texts
  {
    assert texts[0] in texts;
    if |texts| == 1 {
      OneSplits(texts, parts);
    } else {
      ListScans(texts[1..], parts + [texts[0]]);
      MoreSplits(texts, parts);
    }
  }

  lemma FirstPart(texts: seq<Text>, parts: seq<Text>)
    requires |texts| > 1
    ensures parts + [texts[0]] + texts[1..][..|texts[1..]| - 1] == parts + texts[..|texts| - 1]
  {
  }


  lemma FinishLast(texts: seq<Text>, scan: Scan)
    requires texts != [] && scan == Scan(Outside(0), texts[|texts| - 1], [] + texts[..|texts| - 1])
    ensures Finish(scan) == texts <==> !Blank(texts[|texts| - 1])
  {
    var front, last := texts[..|texts| - 1], texts[|texts| - 1];
    assert [] + front == front && front + [last] == texts;
    assert |front| < |texts|;
  }

  /**
   * Splitting undoes printing: the elements come back exactly, whatever commas and
   * quotes they hold, if and only if the last one is not blank.
   */
  lemma SplitInvertsPrint(texts: seq<Text>)
    requires texts != [] && forall t :: t in texts ==> Whole(t)
    ensures Finish(Run(START, Commas(texts))) == texts <==> !Blank(texts[|texts| - 1])
  {
    ListScans(texts, []);
    FinishLast(texts, Run(START, Commas(texts)));
  }

  // Reading one literal.

  function TrimStart(text: Text): Text {
    SkipSpace(text)
  }

  function TrimEnd(text: Text): Text {
    if text != [] && IsSpace(text[|text| - 1]) then TrimEnd(text[..|text| - 1]) else text
  }

  function Trim(text: Text): Text {
    TrimEnd(TrimStart(text))
  }

  lemma {:induction false} TrimmedBlank(text: Text)
    ensures TrimStart(text) == [] <==> Blank(text)
  {
    if text != [] && IsSpace(text[0]) {
      TrimmedBlank(text[1..]);
    }
  }

  /** A value a literal stands for; `Unread` is left for the number reader to make something of. */
  datatype Named = NamedText(text: Text) | NamedNumber(number: int) | NamedId(hex: Text) | NamedBool(value: bool) | NamedNull | Unread(text: Text)

  const TRUE: Text := [116, 114, 117, 101]
  const FALSE: Text := [102, 97, 108, 115, 101]
  const NONE: Text := [78, 79, 78, 69]
  const NULL: Text := [78, 85, 76, 76]

  predicate QuotedBy(text: Text, quote: Unit) {
    |text| > 1 && StartsWith(text, quote) && EndsWith(text, quote)
  }

  function ParseScalar(literal: Text): Named {
    ReadScalar(Trim(literal))
  }

  function ReadScalar(text: Text): Named {
    var hex := PrintedObjectId(text);
    if hex.Some? then NamedId(hex.value)
    else if QuotedBy(text, SINGLE_QUOTE) || QuotedBy(text, DOUBLE_QUOTE) then NamedText(Unescaped(text[1..|text| - 1], 0))
    else if text == TRUE then NamedBool(true)
    else if text == FALSE then NamedBool(false)
    else if text == NONE || text == NULL then NamedNull
    else if ReadInteger(text).Some? then NamedNumber(ReadInteger(text).value)
    else Unread(text)
  }

  function ParseScalars(parts: seq<Text>): seq<Named> {
    if parts == [] then [] else [ParseScalar(parts[0])] + ParseScalars(parts[1..])
  }

  /** What a printed list of values, brackets included, stands for. */
  method ParseValueList(literal: Text) returns (values: seq<Named>)
    ensures values == ParseScalars(Finish(Run(START, Inside(Trim(literal)))))
  {
    var parts := SplitTopLevel(Inside(Trim(literal)));
    values := ParseScalars(parts);
  }

  function Inside(text: Text): Text {
    if |text| < 2 then [] else text[1..|text| - 1]
  }

  // Reading back what the server printed.

  /** `text` is a way the server prints `value`: a string in either quote, however it escapes it. */
  ghost predicate Prints(text: Text, value: Named) {
    match value
    case NamedText(t) => exists body, quote :: PrintsText(text, t, body, quote)
    case NamedNumber(n) => text == PrintInteger(n)
    case NamedId(hex) => IsHex24(hex) && text == PrintObjectId(hex)
    case NamedBool(b) => text == if b then TRUE else FALSE
    case NamedNull => text == NONE || text == NULL
    case Unread(_) => false
  }

  predicate PrintsText(text: Text, t: Text, body: Text, quote: Unit) {
    IsQuote(quote) && QuotedBody(body, quote) && Unescaped(body, 0) == t && text == [quote] + (body + [quote])
  }

  /** Every string has a printed form in either quote. */
  lemma {:induction false} EveryTextPrints(t: Text, quote: Unit)
    requires IsQuote(quote)
    ensures Prints([quote] + (Escaped(t, quote) + [quote]), NamedText(t))
  {
    EscapedIsBody(t, quote);
    assert Escaped(t, quote)[0..] == Escaped(t, quote);
    UnescapeEscaped(t, quote, Escaped(t, quote), 0);
    assert PrintsText([quote] + (Escaped(t, quote) + [quote]), t, Escaped(t, quote), quote);
  }

  lemma {:induction false} EscapedIsBody(t: Text, quote: Unit)
    requires IsQuote(quote)
    ensures QuotedBody(Escaped(t, quote), quote)
    decreases t
  {
    if t != [] {
      EscapedStep(t, quote);
      EscapedIsBody(t[1..], quote);
      assert Escaped(t, quote)[if t[0] == BACKSLASH || t[0] == quote then 2 else 1..] == Escaped(t[1..], quote);
    }
  }

  lemma {:induction false} PlainBody(body: Text, quote: Unit)
    requires BACKSLASH !in body && quote !in body
    ensures QuotedBody(body, quote)
    decreases body
  {
    if body != [] {
      PlainBody(body[1..], quote);
    }
  }

  predicate IsBare(text: Text) {
    forall u :: u in text ==> !Structural(u) && u != COMMA
  }

  function BarePieces(text: Text): seq<Piece> {
    if text == [] then [] else [Bare(text[0])] + BarePieces(text[1..])
  }

  lemma {:induction false} BareIsLiteral(text: Text)
    requires IsBare(text)
    ensures IsLiteral(BarePieces(text)) && PrintPieces(BarePieces(text)) == text
  {
    if text != [] {
      assert text[0] in text && forall u :: u in text[1..] ==> u in text;
      BareIsLiteral(text[1..]);
      PrintCons(Bare(text[0]), BarePieces(text[1..]));
      assert [text[0]] + text[1..] == text;
    }
  }

  lemma BareWhole(text: Text)
    requires IsBare(text)
    ensures Whole(text)
  {
    BareIsLiteral(text);
    LiteralIsWhole(BarePieces(text));
  }

  lemma PrintCons(p: Piece, rest: seq<Piece>)
    ensures PrintPieces([p] + rest) == PrintPiece(p) + PrintPieces(rest)
  {
    assert ([p] + rest)[1..] == rest;
  }

  lemma QuotedWhole(body: Text, quote: Unit)
    requires IsQuote(quote) && QuotedBody(body, quote)
    ensures Whole([quote] + (body + [quote]))
  {
    var pieces := [Quoted(quote, body)];
    PrintCons(pieces[0], []);
    assert pieces == [pieces[0]] + [] && PrintPieces(pieces) == [quote] + (body + [quote]);
    LiteralIsWhole(pieces);
  }

  const TAG: Text := [36, 111, 105, 100]

  /** The quoted hex and the blank after it. */
  function IdLiteral(hex: Text): seq<Piece> {
    [Quoted(SINGLE_QUOTE, hex)] + [Bare(SPACE)]
  }

  function IdInner(hex: Text): seq<Piece> {
    [Bare(SPACE)] + ([Quoted(DOUBLE_QUOTE, TAG)] + ([Bare(COLON)] + ([Bare(SPACE)] + IdLiteral(hex))))
  }

  lemma LiteralPrints(hex: Text)
    ensures PrintPieces(IdLiteral(hex)) + [CLOSE_BRACE] == PrintLiteral(hex)
  {
    PrintCons(Quoted(SINGLE_QUOTE, hex), [Bare(SPACE)]);
    PrintCons(Bare(SPACE), []);
    assert [Bare(SPACE)] + [] == [Bare(SPACE)];
    assert PrintPieces([Bare(SPACE)]) == [SPACE];
    assert [SINGLE_QUOTE] + (hex + [SINGLE_QUOTE]) + [SPACE] + [CLOSE_BRACE] == PrintLiteral(hex);
  }

  lemma InnerPrints(hex: Text)
    ensures [OPEN_BRACE] + (PrintPieces(IdInner(hex)) + [CLOSE_BRACE]) == PrintObjectId(hex)
  {
    var literal, tag := IdLiteral(hex), Quoted(DOUBLE_QUOTE, TAG);
    var p0 := PrintPieces(literal);
    PrintCons(Bare(SPACE), literal);
    PrintCons(Bare(COLON), [Bare(SPACE)] + literal);
    PrintCons(tag, [Bare(COLON)] + ([Bare(SPACE)] + literal));
    PrintCons(Bare(SPACE), [tag] + ([Bare(COLON)] + ([Bare(SPACE)] + literal)));
    assert PrintPiece(tag) == TagIn(DOUBLE_QUOTE);
    LiteralPrints(hex);
    Reassociate([SPACE], p0, [CLOSE_BRACE]);
    Reassociate([COLON], [SPACE] + p0, [CLOSE_BRACE]);
    Reassociate(TagIn(DOUBLE_QUOTE), [COLON] + ([SPACE] + p0), [CLOSE_BRACE]);
    Reassociate([SPACE], TagIn(DOUBLE_QUOTE) + ([COLON] + ([SPACE] + p0)), [CLOSE_BRACE]);
  }

  ghost predicate AllWellFormed(pieces: seq<Piece>) {
    forall p :: p in pieces ==> WellFormed(p)
  }

  lemma WellFormedCons(p: Piece, rest: seq<Piece>)
    requires WellFormed(p) && AllWellFormed(rest)
    ensures AllWellFormed([p] + rest)
  {
  }

  lemma InnerWellFormed(hex: Text)
    requires IsHex24(hex)
    ensures AllWellFormed(IdInner(hex))
  {
    var space, colon, tag, literal := Bare(SPACE), Bare(COLON), Quoted(DOUBLE_QUOTE, TAG), Quoted(SINGLE_QUOTE, hex);
    PlainBody(TAG, DOUBLE_QUOTE);
    PlainBody(hex, SINGLE_QUOTE);
    WellFormedCons(literal, [space]);
    WellFormedCons(space, IdLiteral(hex));
    WellFormedCons(colon, [space] + IdLiteral(hex));
    WellFormedCons(tag, [colon] + ([space] + IdLiteral(hex)));
    WellFormedCons(space, [tag] + ([colon] + ([space] + IdLiteral(hex))));
  }

  lemma IdWhole(hex: Text)
    requires IsHex24(hex)
    ensures Whole(PrintObjectId(hex))
  {
    var whole := Group(OPEN_BRACE, IdInner(hex), CLOSE_BRACE);
    InnerWellFormed(hex);
    InnerPrints(hex);
    PrintCons(whole, []);
    assert [whole] + [] == [whole] && PrintPieces([whole]) == PrintObjectId(hex);
    LiteralIsWhole([whole]);
  }

  lemma PrintsWhole(text: Text, value: Named)
    requires Prints(text, value)
    ensures Whole(text)
  {
    match value
    case NamedText(t) =>
      var body, quote :| PrintsText(text, t, body, quote);
      QuotedWhole(body, quote);
    case NamedNumber(n) =>
      BareWhole(text);
    case NamedId(hex) =>
      IdWhole(hex);
    case _ =>
      BareWhole(text);
  }

  /** A text that neither starts nor ends blank is all a reader sees of it. */
  lemma TrimKeeps(text: Text)
    requires text != [] && !IsSpace(text[0]) && !IsSpace(text[|text| - 1])
    ensures Trim(text) == text && Trim([SPACE] + text) == text
  {
    SpaceSkipped(text);
  }

  lemma NoBraceNoId(text: Text)
    requires text != [] && !IsSpace(text[0]) && text[0] != OPEN_BRACE
    ensures PrintedObjectId(text) == None
  {
    SpaceSkipped(text);
    assert AfterPrefix(text, [OPEN_BRACE]) == None;
  }

  lemma TextReads(text: Text, t: Text, body: Text, quote: Unit)
    requires PrintsText(text, t, body, quote)
    ensures Trim(text) == Trim([SPACE] + text) == text && ReadScalar(text) == NamedText(t)
  {
    TrimKeeps(text);
    SpaceSkipped(text);
    assert text[1..|text| - 1] == body;
    assert AfterPrefix(text, [OPEN_BRACE]) == None;
  }

  lemma NumberReads(n: int)
    ensures ReadScalar(PrintInteger(n)) == NamedNumber(n)
    ensures Trim(PrintInteger(n)) == Trim([SPACE] + PrintInteger(n)) == PrintInteger(n)
  {
    var text := PrintInteger(n);
    IntegerReads(n);
    TrimKeeps(text);
    NoBraceNoId(text);
    assert text[0] !in {SINGLE_QUOTE, DOUBLE_QUOTE, TRUE[0], FALSE[0], NONE[0]};
  }

  lemma IdReads(hex: Text)
    requires IsHex24(hex)
    ensures ReadScalar(PrintObjectId(hex)) == NamedId(hex)
    ensures Trim(PrintObjectId(hex)) == Trim([SPACE] + PrintObjectId(hex)) == PrintObjectId(hex)
  {
    var text := PrintObjectId(hex);
    ObjectIdParses(hex);
    InnerPrints(hex);
    assert text[0] == OPEN_BRACE && text[|text| - 1] == CLOSE_BRACE;
    TrimKeeps(text);
  }

  lemma WordReads(text: Text)
    requires text in {TRUE, FALSE, NONE, NULL}
    ensures Trim(text) == Trim([SPACE] + text) == text
    ensures ReadScalar(text) == if text == TRUE then NamedBool(true) else if text == FALSE then NamedBool(false) else NamedNull
  {
    TrimKeeps(text);
    NoBraceNoId(text);
  }

  lemma PrintsReads(text: Text, value: Named)
    requires Prints(text, value)
    ensures ParseScalar(text) == value && ParseScalar([SPACE] + text) == value
  {
    match value
    case NamedText(t) =>
      var body, quote :| PrintsText(text, t, body, quote);
      TextReads(text, t, body, quote);
    case NamedNumber(n) =>
      NumberReads(n);
    case NamedId(hex) =>
      IdReads(hex);
    case _ =>
      WordReads(text);
  }

  // The whole list.

  /** The elements as a list prints them: a blank before each but the first. */
  function Spaced(texts: seq<Text>): (spaced: seq<Text>)
    ensures |spaced| == |texts|
    ensures forall i :: 0 <= i < |texts| ==> spaced[i] == if i == 0 then texts[i] else [SPACE] + texts[i]
  {
    seq(|texts|, i requires 0 <= i < |texts| => if i == 0 then texts[i] else [SPACE] + texts[i])
  }

  function PrintList(texts: seq<Text>): Text {
    [OPEN_BRACKET] + Commas(Spaced(texts)) + [CLOSE_BRACKET]
  }

  ghost predicate AllPrint(texts: seq<Text>, values: seq<Named>) {
    |texts| == |values| && forall i :: 0 <= i < |texts| ==> Prints(texts[i], values[i])
  }

  lemma WholeAppend(a: Text, b: Text)
    requires Whole(a) && Whole(b)
    ensures Whole(a + b)
  {
    forall current, parts
      ensures Run(Scan(Outside(0), current, parts), a + b) == Scan(Outside(0), current + (a + b), parts)
    {
      RunAppend(Scan(Outside(0), current, parts), a, b);
      Reassociate(current, a, b);
    }
  }

  lemma SpacedWhole(text: Text, value: Named)
    requires Prints(text, value)
    ensures Whole(text) && Whole([SPACE] + text)
    ensures !Blank(text) && !Blank([SPACE] + text)
  {
    PrintsWhole(text, value);
    BareWhole([SPACE]);
    WholeAppend([SPACE], text);
    PrintsReads(text, value);
    NotBlank(text, value);
    assert forall u :: u in text ==> u in [SPACE] + text;
  }

  lemma NotBlank(text: Text, value: Named)
    requires Prints(text, value)
    ensures !Blank(text)
  {
    if value.NamedNumber? {
      IntegerReads(value.number);
    } else if value.NamedId? {
      assert text[0] == OPEN_BRACE;
    }
    assert text[0] in text;
  }

  lemma {:induction false} ParseAll(parts: seq<Text>, values: seq<Named>)
    requires |parts| == |values| && forall i :: 0 <= i < |parts| ==> ParseScalar(parts[i]) == values[i]
    ensures ParseScalars(parts) == values
  {
    if parts != [] {
      ParseAll(parts[1..], values[1..]);
      assert [values[0]] + values[1..] == values;
    }
  }

  /**
   * Reading the printed list of a compound key's values recovers every one of them:
   * strings in either quote with whatever they hold, numbers, ids, booleans, nulls.
   */
  lemma ValueListRoundTrip(texts: seq<Text>, values: seq<Named>)
    requires AllPrint(texts, values)
    ensures ParseScalars(Finish(Run(START, Inside(Trim(PrintList(texts)))))) == values
  {
    var spaced, list := Spaced(texts), PrintList(texts);
    TrimKeeps(list);
    assert Inside(list) == Commas(spaced);
    forall i | 0 <= i < |texts|
      ensures Whole(spaced[i]) && !Blank(spaced[i]) && ParseScalar(spaced[i]) == values[i]
    {
      SpacedWhole(texts[i], values[i]);
      PrintsReads(texts[i], values[i]);
    }
    if texts != [] {
      SplitInvertsPrint(spaced);
    }
    ParseAll(spaced, values);
  }
}
