/** Date format strings: MongoDB's specifiers rewritten to the server's. */
module DateFormats {
  import opened Values
  import opened Identifiers

  const PERCENT: Unit := 37

  /** Year, month, day, hour, minute, second, day and weeks of year, zone: spelled alike. */
  const SHARED: Text := [89, 109, 100, 72, 77, 83, 106, 85, 71, 86, 122, 90]

  /** `L`, and the day-of-week specifiers `w` and `u` that the server numbers differently. */
  const MILLISECONDS: Unit := 76
  const WEEKDAY: Unit := 119
  const ISO_WEEKDAY: Unit := 117

  datatype FormatError = LonePercent | NumberedDifferently(specifier: Unit) | UnknownSpecifier(specifier: Unit)

  function Mapped(specifier: Unit): Option<Text> {
    if specifier in SHARED then Some([PERCENT, specifier])
    else if specifier == MILLISECONDS then Some([PERCENT, 51, 102])
    else if specifier == PERCENT then Some([PERCENT, PERCENT])
    else None
  }

  /** The server's format for what stands from place `i` on. */
  function Translate(format: Text, i: nat): Result<Text, FormatError>
    requires i <= |format|
    decreases |format| - i
  {
    if i == |format| then Success([])
    else if format[i] != PERCENT then
      var rest :- Translate(format, i + 1);
      Success([format[i]] + rest)
    else if i + 1 == |format| then Failure(LonePercent)
    else if format[i + 1] == WEEKDAY || format[i + 1] == ISO_WEEKDAY then Failure(NumberedDifferently(format[i + 1]))
    else if Mapped(format[i + 1]).None? then Failure(UnknownSpecifier(format[i + 1]))
    else
      var rest :- Translate(format, i + 2);
      Success(Mapped(format[i + 1]).value + rest)
  }

  function Followed(out: Text, rest: Result<Text, FormatError>): Result<Text, FormatError> {
    if rest.Success? then Success(out + rest.value) else rest
  }

  lemma FollowedAppend(out: Text, more: Text, rest: Result<Text, FormatError>)
    ensures Followed(out, Followed(more, rest)) == Followed(out + more, rest)
  {
    if rest.Success? {
      Reassociate(out, more, rest.value);
    }
  }

  method TranslateDateFormat(format: Text) returns (translated: Result<Text, FormatError>)
    ensures translated == Translate(format, 0)
  {
    var out := [];
    var i := 0;
    assert Translate(format, 0).Success? ==> [] + Translate(format, 0).value == Translate(format, 0).value;
    while i < |format|
      invariant 0 <= i <= |format|
      invariant Followed(out, Translate(format, i)) == Translate(format, 0)
    {
      if format[i] != PERCENT {
        FollowedAppend(out, [format[i]], Translate(format, i + 1));
        out := out + [format[i]];
        i := i + 1;
        continue;
      }
      if i + 1 == |format| {
        return Failure(LonePercent);
      }
      var specifier := format[i + 1];
      if specifier == WEEKDAY || specifier == ISO_WEEKDAY {
        return Failure(NumberedDifferently(specifier));
      }
      var mapped := Mapped(specifier);
      if mapped.None? {
        return Failure(UnknownSpecifier(specifier));
      }
      FollowedAppend(out, mapped.value, Translate(format, i + 2));
      out := out + mapped.value;
      i := i + 2;
    }
    assert out + [] == out;
    translated := Success(out);
  }

  // What a format means on either side.

  /** A character to copy or a part of the date, named by MongoDB's specifier. */
  datatype Token = Copied(unit: Unit) | DatePart(specifier: Unit)

  /** A MongoDB format: `%` and a specifier, `%%` a percent sign, none when one ends it. */
  function MongoTokens(format: Text, i: nat): Option<seq<Token>>
    requires i <= |format|
    decreases |format| - i
  {
    if i == |format| then Some([])
    else if format[i] != PERCENT then
      var rest :- MongoTokens(format, i + 1);
      Some([Copied(format[i])] + rest)
    else if i + 1 == |format| then None
    else
      var rest :- MongoTokens(format, i + 2);
      Some([if format[i + 1] == PERCENT then Copied(PERCENT) else DatePart(format[i + 1])] + rest)
  }

  /** The server's format: the shared specifiers, `%3f` for milliseconds, `%%`. */
  function ServerTokens(format: Text): Option<seq<Token>>
    decreases |format|
  {
    if format == [] then Some([])
    else if format[0] != PERCENT then
      var rest :- ServerTokens(format[1..]);
      Some([Copied(format[0])] + rest)
    else if |format| > 2 && format[1] == 51 && format[2] == 102 then
      var rest :- ServerTokens(format[3..]);
      Some([DatePart(MILLISECONDS)] + rest)
    else if |format| > 1 && (format[1] in SHARED || format[1] == PERCENT) then
      var rest :- ServerTokens(format[2..]);
      Some([if format[1] == PERCENT then Copied(PERCENT) else DatePart(format[1])] + rest)
    else None
  }

  predicate HasCounterpart(token: Token) {
    token.Copied? || token.specifier in SHARED || token.specifier == MILLISECONDS
  }

  /**
   * A format is translated exactly when it is complete and every part it names is
   * rendered alike by the server, and then both render the same parts in order.
   */
  lemma {:induction false} TranslationRendersTheSame(format: Text, i: nat)
    requires i <= |format|
    ensures Translate(format, i).Success? <==> MongoTokens(format, i).Some? && forall t :: t in MongoTokens(format, i).value ==> HasCounterpart(t)
    ensures Translate(format, i).Success? ==> ServerTokens(Translate(format, i).value) == MongoTokens(format, i)
    decreases |format| - i
  {
    if i < |format| {
      if format[i] != PERCENT {
        TranslationRendersTheSame(format, i + 1);
        if Translate(format, i + 1).Success? {
          assert ([format[i]] + Translate(format, i + 1).value)[1..] == Translate(format, i + 1).value;
        }
        FirstToken(Copied(format[i]), MongoTokens(format, i + 1));
      } else if i + 1 < |format| {
        TranslationRendersTheSame(format, i + 2);
        var specifier := format[i + 1];
        if Translate(format, i + 2).Success? && Mapped(specifier).Some? {
          MappedRead(specifier, Translate(format, i + 2).value);
        }
        assert WEEKDAY !in SHARED && ISO_WEEKDAY !in SHARED && PERCENT !in SHARED;
        FirstToken(if specifier == PERCENT then Copied(PERCENT) else DatePart(specifier), MongoTokens(format, i + 2));
      }
    }
  }

  lemma FirstToken(first: Token, rest: Option<seq<Token>>)
    ensures rest.Some? ==>
              ((forall t :: t in [first] + rest.value ==> HasCounterpart(t)) <==> HasCounterpart(first) && forall t :: t in rest.value ==> HasCounterpart(t))
  {
    if rest.Some? {
      assert forall t :: t in [first] + rest.value <==> t == first || t in rest.value;
    }
  }

  lemma MappedRead(specifier: Unit, rest: Text)
    requires Mapped(specifier).Some?
    ensures var first := if specifier == PERCENT then Copied(PERCENT) else DatePart(specifier);
            ServerTokens(Mapped(specifier).value + rest) ==
            if ServerTokens(rest).Some? then Some([first] + ServerTokens(rest).value) else None
  {
    var mapped := Mapped(specifier).value;
    var text := mapped + rest;
    assert text[|mapped|..] == rest;
    assert 51 !in SHARED;
  }
}
