/**
 * Which spellings are read as what: hexadecimal digits, escapes the reader does not
 * know, printed numbers, blanks, and the texts that can be an ObjectId.
 */
module TextLaws {
  import opened Values
  import opened Identifiers
  import ObjectIds

  /** The sixteen digits in either case, and nothing else. */
  lemma HexValueTells(u: Unit, n: nat)
    ensures HexValue(u) == Some(n) <==>
              (n < 10 && u == '0' as int + n) || (10 <= n < 16 && (u == 'a' as int + n - 10 || u == 'A' as int + n - 10))
  {
  }

  lemma {:induction false} HexDigitsExactly(digits: Text)
    ensures HexDigits(digits).Some? <==> forall u :: u in digits ==> HexValue(u).Some?
  {
    if digits != [] {
      var last := digits[|digits| - 1];
      HexDigitsExactly(digits[..|digits| - 1]);
      assert digits == digits[..|digits| - 1] + [last];
    }
  }

  /** A number in hexadecimal without leading zeros. */
  function InHex(n: nat): (digits: Text)
    ensures digits != [] && (n < 16 ==> |digits| == 1)
  {
    if n < 16 then [ObjectIds.HexDigit(n)] else InHex(n / 16) + [ObjectIds.HexDigit(n % 16)]
  }

  lemma {:induction false} InHexIsShort(n: nat, width: nat, bound: nat)
    requires width > 0 && bound == Power16(width) && n < bound
    ensures |InHex(n)| <= width
    decreases width
  {
    if n >= 16 {
      assert width > 1;
      InHexIsShort(n / 16, width - 1, Power16(width - 1));
    }
  }

  function Power16(k: nat): nat {
    if k == 0 then 1 else 16 * Power16(k - 1)
  }

  lemma {:induction false} InHexReads(n: nat)
    ensures HexDigits(InHex(n)) == Some(n)
  {
    var front := InHex(n)[..|InHex(n)| - 1];
    if n < 16 {
      assert front == [];
    } else {
      InHexReads(n / 16);
      assert front == InHex(n / 16);
    }
  }

  /** Digits are a number exactly when there are one to six of them, each hexadecimal. */
  lemma HexNumberExactly(digits: Text)
    ensures HexNumber(digits).Some? <==> 1 <= |digits| <= 6 && forall u :: u in digits ==> HexValue(u).Some?
  {
    HexDigitsExactly(digits);
  }

  /** Every code point there is can be spelled in braces, and is read. */
  lemma EveryCodePointReads(code: nat)
    requires code <= 0x10FFFF
    ensures ReadsAs([BACKSLASH, LETTER_U, OPEN_BRACE] + InHex(code) + [CLOSE_BRACE], FromCodePoint(code))
  {
    SixteenToTheSixth();
    InHexIsShort(code, 6, 0x100_0000);
    InHexReads(code);
    BracedReadsAs(InHex(code));
  }

  lemma SixteenToTheSixth()
    ensures Power16(6) == 0x100_0000
  {
    assert Power16(2) == 256;
    assert Power16(4) == 0x1_0000;
  }

  /** Anything else between the braces leaves a plain `u`. */
  lemma OtherBracesRead(text: Text, i: nat, digits: Text)
    requires i + 4 + |digits| <= |text| && CLOSE_BRACE !in digits && !IsCodePoint(digits)
    requires text[i] == BACKSLASH && text[i + 1] == LETTER_U && text[i + 2] == OPEN_BRACE
    requires text[i + 3..i + 3 + |digits|] == digits && text[i + 3 + |digits|] == CLOSE_BRACE
    ensures ReadUnit(text, i) == ([LETTER_U], i + 2)
  {
    var close := IndexFrom(text, CLOSE_BRACE, i + 3);
    assert forall j :: i + 3 <= j < i + 3 + |digits| ==> text[j] == digits[j - (i + 3)];
    assert close == i + 3 + |digits|;
  }

  /** A letter after a backslash is read as another character exactly when it is the letter of that one. */
  lemma LettersTell(letter: Unit)
    ensures ShortEscape(letter) != letter <==> exists u :: HasLetter(u) && LetterOf(u) == letter
    ensures HasLetter(letter) ==> ShortEscape(LetterOf(letter)) == letter
  {
    var u := ShortEscape(letter);
    if u != letter {
      assert HasLetter(u) && LetterOf(u) == letter;
    }
  }

  /** A printed number starts with a minus sign exactly when it is negative, and with a zero only when it is zero. */
  lemma PrintedNumberTells(n: int)
    ensures StartsWith(PrintInteger(n), MINUS) <==> n < 0
    ensures StartsWith(PrintInteger(n), 48) <==> n == 0
  {
    DigitsStart(if n < 0 then -n else n);
  }

  lemma {:induction false} DigitsStart(n: nat)
    ensures Digits(n)[0] != MINUS && (Digits(n)[0] == 48 <==> n == 0)
  {
    if n >= 10 {
      DigitsStart(n / 10);
    }
  }

  /** White space and line terminators, as section 12 of ECMA-262 lists them. */
  lemma BlanksAre(u: Unit)
    ensures IsSpace(u) <==>
              || u in [0x9, 0xB, 0xC, 0xFEFF] || u in [0xA, 0xD, 0x2028, 0x2029]
              || u in [0x20, 0xA0, 0x1680, 0x202F, 0x205F, 0x3000]
              || u in [0x2000, 0x2001, 0x2002, 0x2003, 0x2004, 0x2005, 0x2006, 0x2007, 0x2008, 0x2009, 0x200A]
  {
  }

  lemma LowerHexIs(u: Unit)
    ensures IsLowerHex(u) <==> HexValue(u).Some? && ObjectIds.LowerUnit(u) == u
    ensures HexValue(u).Some? ==> IsLowerHex(ObjectIds.LowerUnit(u))
  {
  }

  lemma {:induction false} LowerIsLower(hex: Text)
    ensures |ObjectIds.Lower(hex)| == |hex|
    ensures forall i :: 0 <= i < |hex| ==> ObjectIds.Lower(hex)[i] == ObjectIds.LowerUnit(hex[i])
  {
    if hex != [] {
      LowerIsLower(hex[1..]);
    }
  }

  /** A text can be a printed ObjectId's exactly when it is the lowercase text of twelve bytes. */
  lemma ObjectIdTexts(hex: Text)
    ensures IsHex24(hex) <==> exists bytes: seq<ObjectIds.Byte> :: |bytes| == 12 && ObjectIds.Hex(bytes) == hex
  {
    LowerIsLower(hex);
    forall u | u in hex
      ensures IsLowerHex(u) <==> HexValue(u).Some? && ObjectIds.LowerUnit(u) == u
    {
      LowerHexIs(u);
    }
    if IsHex24(hex) {
      var bytes := ObjectIds.FromHex(hex);
      ObjectIds.HexReadsBack(hex);
      forall i | 0 <= i < |hex|
        ensures ObjectIds.Lower(hex)[i] == hex[i]
      {
        assert hex[i] in hex;
      }
      assert ObjectIds.Lower(hex) == hex;
      assert |bytes| == 12 && ObjectIds.Hex(bytes) == hex;
    }
    if bytes: seq<ObjectIds.Byte> :| |bytes| == 12 && ObjectIds.Hex(bytes) == hex {
      ObjectIds.HexRoundTrip(bytes);
      ObjectIds.HexReadsBack(hex);
      assert ObjectIds.Lower(hex) == hex;
      forall u | u in hex
        ensures IsLowerHex(u)
      {
        var i :| 0 <= i < |hex| && hex[i] == u;
        assert ObjectIds.Lower(hex)[i] == u;
      }
    }
  }
}
