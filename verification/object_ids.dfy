/**
 * ObjectIds: twelve bytes, their hexadecimal and base64 spellings, the timestamp
 * in the first four and the counter in the last three.
 */
module ObjectIds {
  import opened Values
  import opened Identifiers

  type Byte = n: nat | n < 256

  // Hexadecimal.

  function HexDigit(n: nat): (u: Unit)
    requires n < 16
    ensures HexValue(u) == Some(n)
  {
    if n < 10 then 48 + n else 87 + n
  }

  function Hex(bytes: seq<Byte>): (hex: Text)
    ensures |hex| == 2 * |bytes|
  {
    if bytes == [] then [] else [HexDigit(bytes[0] / 16), HexDigit(bytes[0] % 16)] + Hex(bytes[1..])
  }

  predicate IsHex(text: Text) {
    forall u :: u in text ==> HexValue(u).Some?
  }

  /** The bytes pairs of hexadecimal digits stand for. */
  function FromHex(hex: Text): (bytes: seq<Byte>)
    requires IsHex(hex) && |hex| % 2 == 0
    ensures 2 * |bytes| == |hex|
  {
    if hex == [] then [] else
    assert hex[0] in hex && hex[1] in hex;
    [16 * HexValue(hex[0]).value + HexValue(hex[1]).value] + FromHex(hex[2..])
  }

  function LowerUnit(u: Unit): Unit {
    if 65 <= u <= 90 then u + 32 else u
  }

  function Lower(text: Text): Text {
    if text == [] then [] else [LowerUnit(text[0])] + Lower(text[1..])
  }

  method BytesToHex(bytes: array<Byte>) returns (hex: Text)
    ensures hex == Hex(bytes[..])
  {
    hex := [];
    var i := 0;
    while i < bytes.Length
      invariant 0 <= i <= bytes.Length
      invariant hex + Hex(bytes[i..]) == Hex(bytes[..])
    {
      assert bytes[i..][1..] == bytes[i + 1..];
      var digits := [HexDigit(bytes[i] / 16), HexDigit(bytes[i] % 16)];
      Reassociate(hex, digits, Hex(bytes[i + 1..]));
      hex := hex + digits;
      i := i + 1;
    }
  }

  lemma PairRead(written: seq<Byte>, hex: Text, i: nat)
    requires IsHex(hex) && |hex| % 2 == 0 && 2 * i + 2 <= |hex|
    ensures var b := 16 * HexValue(hex[2 * i]).value + HexValue(hex[2 * i + 1]).value;
            0 <= b < 256 && written + FromHex(hex[2 * i..]) == written + [b] + FromHex(hex[2 * i + 2..])
  {
    var pair := hex[2 * i..];
    assert pair[0] == hex[2 * i] && pair[1] == hex[2 * i + 1] && pair[2..] == hex[2 * i + 2..];
    assert hex[2 * i] in hex && hex[2 * i + 1] in hex;
  }

  method HexToBytes(hex: Text) returns (bytes: array<Byte>)
    requires IsHex(hex) && |hex| % 2 == 0
    ensures fresh(bytes) && bytes[..] == FromHex(hex)
  {
    bytes := new Byte[|hex| / 2];
    assert hex[0..] == hex && bytes[..0] == [];
    var i := 0;
    while i < bytes.Length
      invariant 0 <= i <= bytes.Length
      invariant bytes[..i] + FromHex(hex[2 * i..]) == FromHex(hex)
    {
      ghost var done := bytes[..i];
      PairRead(done, hex, i);
      WritePair(bytes, hex, i);
      i := i + 1;
    }
    assert hex[2 * i..] == [] && bytes[..i] + [] == bytes[..];
  }

  method WritePair(bytes: array<Byte>, hex: Text, i: nat)
    requires i < bytes.Length && IsHex(hex) && |hex| == 2 * bytes.Length
    modifies bytes
    ensures bytes[..i + 1] == old(bytes[..i]) + [16 * HexValue(hex[2 * i]).value + HexValue(hex[2 * i + 1]).value]
  {
    bytes[i] := 16 * HexValue(hex[2 * i]).value + HexValue(hex[2 * i + 1]).value;
  }

  lemma PairAhead(h: nat, l: nat, rest: Text)
    requires h < 16 && l < 16 && IsHex(rest) && |rest| % 2 == 0
    ensures var text := [HexDigit(h), HexDigit(l)] + rest;
            IsHex(text) && |text| % 2 == 0 && FromHex(text) == [16 * h + l] + FromHex(rest)
  {
    var text := [HexDigit(h), HexDigit(l)] + rest;
    assert text[2..] == rest;
    assert forall u :: u in text ==> u == HexDigit(h) || u == HexDigit(l) || u in rest;
  }

  /** Bytes written as hexadecimal read back as themselves. */
  lemma {:induction false} HexRoundTrip(bytes: seq<Byte>)
    ensures IsHex(Hex(bytes)) && FromHex(Hex(bytes)) == bytes
  {
    if bytes != [] {
      HexRoundTrip(bytes[1..]);
      PairAhead(bytes[0] / 16, bytes[0] % 16, Hex(bytes[1..]));
      assert 16 * (bytes[0] / 16) + bytes[0] % 16 == bytes[0];
      assert [bytes[0]] + bytes[1..] == bytes;
    }
  }

  /** Hexadecimal in either case reads to bytes whose text is its lowercase form. */
  lemma {:induction false} HexReadsBack(hex: Text)
    requires IsHex(hex) && |hex| % 2 == 0
    ensures Hex(FromHex(hex)) == Lower(hex)
    decreases hex
  {
    if hex != [] {
      assert hex[0] in hex && hex[1] in hex;
      HexReadsBack(hex[2..]);
      assert hex[1..][1..] == hex[2..];
      var b := FromHex(hex)[0];
      assert b / 16 == HexValue(hex[0]).value && b % 16 == HexValue(hex[1]).value;
    }
  }

  // Base64.

  /** The base64 digit at place `n` of the alphabet. */
  function Digit64(n: nat): (u: Unit)
    requires n < 64
    ensures Value64(u) == Some(n)
  {
    if n < 26 then 65 + n else if n < 52 then 71 + n else if n < 62 then n - 4 else if n == 62 then 43 else 47
  }

  function Value64(u: Unit): Option<nat> {
    if 65 <= u <= 90 then Some(u - 65)
    else if 97 <= u <= 122 then Some(u - 71)
    else if 48 <= u <= 57 then Some(u + 4)
    else if u == 43 then Some(62)
    else if u == 47 then Some(63)
    else None
  }

  function Triple(a: Byte, b: Byte, c: Byte): (t: nat)
    ensures t < 0x100_0000
  {
    a * 0x1_0000 + b * 0x100 + c
  }

  function Quad(a: nat, b: nat, c: nat, d: nat): nat {
    ((a * 64 + b) * 64 + c) * 64 + d
  }

  function Digits64(t: nat): (digits: Text)
    requires t < 0x100_0000
    ensures |digits| == 4
  {
    [Digit64(t / 0x4_0000), Digit64(t / 0x1000 % 64), Digit64(t / 64 % 64), Digit64(t % 64)]
  }

  /** The text of `groups` groups of three bytes, four digits each. */
  function Base64(bytes: seq<Byte>, groups: nat): (text: Text)
    requires |bytes| == 3 * groups
    ensures |text| == 4 * groups
  {
    if groups == 0 then [] else Digits64(Triple(bytes[0], bytes[1], bytes[2])) + Base64(bytes[3..], groups - 1)
  }

  /** The number four base64 digits stand for, none when one of them is no digit. */
  function ReadQuad(text: Text): (q: Option<nat>)
    requires |text| >= 4
    ensures q.Some? ==> q.value < 0x100_0000
  {
    var a :- Value64(text[0]);
    var b :- Value64(text[1]);
    var c :- Value64(text[2]);
    var d :- Value64(text[3]);
    Some(Quad(a, b, c, d))
  }

  function ThreeBytes(q: nat): seq<Byte>
    requires q < 0x100_0000
  {
    [q / 0x1_0000, q / 0x100 % 256, q % 256]
  }

  /** The bytes `groups` groups of four digits stand for, none when some character is no digit. */
  function FromBase64(text: Text, groups: nat): (bytes: Option<seq<Byte>>)
    requires |text| == 4 * groups
    ensures bytes.Some? ==> |bytes.value| == 3 * groups
  {
    if groups == 0 then Some([]) else
    var q :- ReadQuad(text);
    var rest :- FromBase64(text[4..], groups - 1);
    Some(ThreeBytes(q) + rest)
  }

  lemma Base64Step(bytes: seq<Byte>, groups: nat)
    requires groups > 0 && |bytes| == 3 * groups
    ensures Base64(bytes, groups) == Digits64(Triple(bytes[0], bytes[1], bytes[2])) + Base64(bytes[3..], groups - 1)
  {
  }

  method BytesToBase64(bytes: array<Byte>, ghost groups: nat) returns (text: Text)
    requires bytes.Length == 3 * groups
    ensures text == Base64(bytes[..], groups)
  {
    text := [];
    var i := 0;
    ghost var left := groups;
    while i < bytes.Length
      invariant 0 <= i <= bytes.Length && i == 3 * (groups - left)
      invariant text + Base64(bytes[i..], left) == Base64(bytes[..], groups)
    {
      var triple := Triple(bytes[i], bytes[i + 1], bytes[i + 2]);
      Base64Step(bytes[i..], left);
      assert bytes[i..][3..] == bytes[i + 3..];
      Reassociate(text, Digits64(triple), Base64(bytes[i + 3..], left - 1));
      text := text + Digits64(triple);
      i, left := i + 3, left - 1;
    }
  }

  /** The number `n` digits from place `i` on stand for. */
  function ReadDigits(text: Text, i: nat, n: nat): Option<nat>
    requires i + n <= |text|
  {
    if n == 0 then Some(0) else
    var front :- ReadDigits(text, i, n - 1);
    var last :- Value64(text[i + n - 1]);
    Some(front * 64 + last)
  }

  lemma FourDigits(text: Text, i: nat)
    requires i + 4 <= |text|
    ensures ReadDigits(text, i, 4) == ReadQuad(text[i..])
  {
    DigitStep(text, i, 0);
    DigitStep(text, i, 1);
    DigitStep(text, i, 2);
    DigitStep(text, i, 3);
  }

  lemma DigitStep(text: Text, i: nat, n: nat)
    requires i + n < |text|
    ensures var front, last := ReadDigits(text, i, n), Value64(text[i + n]);
            ReadDigits(text, i, n + 1) == if front.Some? && last.Some? then Some(front.value * 64 + last.value) else None
  {
  }

  method ReadFour(text: Text, i: nat) returns (quad: Option<nat>)
    requires i + 4 <= |text|
    ensures quad == ReadQuad(text[i..])
  {
    FourDigits(text, i);
    var number := 0;
    var digit := 0;
    while digit < 4
      invariant 0 <= digit <= 4 && ReadDigits(text, i, digit) == Some(number)
    {
      var value := Value64(text[i + digit]);
      if value.None? {
        StuckDigit(text, i, digit, 4);
        return None;
      }
      number := number * 64 + value.value;
      digit := digit + 1;
    }
    quad := Some(number);
  }

  lemma {:induction false} StuckDigit(text: Text, i: nat, bad: nat, n: nat)
    requires bad < n && i + n <= |text| && Value64(text[i + bad]).None?
    ensures ReadDigits(text, i, n).None?
  {
    if bad < n - 1 {
      StuckDigit(text, i, bad, n - 1);
    }
  }

  /** `written` and what is still to be read, when that reads. */
  function After(written: seq<Byte>, rest: Option<seq<Byte>>): Option<seq<Byte>> {
    if rest.Some? then Some(written + rest.value) else None
  }

  lemma EmptyAfter(rest: Option<seq<Byte>>)
    ensures After([], rest) == rest
  {
    if rest.Some? {
      assert [] + rest.value == rest.value;
    }
  }

  lemma AfterAppend(written: seq<Byte>, more: seq<Byte>, rest: Option<seq<Byte>>)
    ensures After(written, After(more, rest)) == After(written + more, rest)
  {
    if rest.Some? {
      assert written + (more + rest.value) == written + more + rest.value;
    }
  }

  lemma QuadBytesBounded(q: nat)
    requires q < 0x100_0000
    ensures [q / 0x1_0000 % 256, q / 0x100 % 256, q % 256] == ThreeBytes(q)
  {
  }

  lemma GroupRead(written: seq<Byte>, text: Text, i: nat, left: nat)
    requires left > 0 && |text| == i + 4 * left
    ensures var quad, rest := ReadQuad(text[i..]), FromBase64(text[i + 4..], left - 1);
            After(written, FromBase64(text[i..], left)) == if quad.None? then None else After(written + ThreeBytes(quad.value), rest)
  {
    assert text[i..][4..] == text[i + 4..];
    var quad := ReadQuad(text[i..]);
    if quad.Some? {
      AfterAppend(written, ThreeBytes(quad.value), FromBase64(text[i + 4..], left - 1));
    }
  }

  method WriteThree(bytes: array<Byte>, out: nat, quad: nat)
    requires out + 3 <= bytes.Length && quad < 0x100_0000
    modifies bytes
    ensures bytes[..out + 3] == old(bytes[..out]) + ThreeBytes(quad)
  {
    QuadBytesBounded(quad);
    bytes[out] := quad / 0x1_0000 % 256;
    bytes[out + 1] := quad / 0x100 % 256;
    bytes[out + 2] := quad % 256;
  }

  /** Writes the bytes a base64 text stands for, unless some character is no digit. */
  method Base64ToBytes(text: Text, groups: nat) returns (bytes: Option<array<Byte>>)
    requires |text| == 4 * groups
    ensures bytes.Some? <==> FromBase64(text, groups).Some?
    ensures bytes.Some? ==> fresh(bytes.value) && bytes.value[..] == FromBase64(text, groups).value
  {
    var written := new Byte[3 * groups];
    var i, out := 0, 0;
    ghost var left := groups;
    assert text[0..] == text && written[..0] == [];
    EmptyAfter(FromBase64(text, groups));
    while i < |text|
      invariant 0 <= i && 0 <= out && left >= 0 && |text| == i + 4 * left && written.Length == out + 3 * left
      invariant FromBase64(text, groups) == After(written[..out], FromBase64(text[i..], left))
    {
      ghost var done := written[..out];
      GroupRead(done, text, i, left);
      var quad := ReadFour(text, i);
      if quad.None? {
        return None;
      }
      WriteThree(written, out, quad.value);
      i, out, left := i + 4, out + 3, left - 1;
    }
    assert left == 0 && FromBase64(text[i..], left) == Some([]);
    assert written[..out] == written[..] && written[..] + [] == written[..];
    bytes := Some(written);
  }

  lemma Over64(q: nat, r: nat)
    requires r < 64
    ensures (q * 64 + r) / 64 == q && (q * 64 + r) % 64 == r
  {
  }

  lemma Over4096(q: nat, r: nat)
    requires r < 0x1000
    ensures (q * 0x1000 + r) / 0x1000 == q
  {
  }

  lemma Over256(q: nat, r: nat)
    requires r < 256
    ensures (q * 256 + r) / 256 == q && (q * 256 + r) % 256 == r
  {
  }

  lemma HighDigits(a: Byte, b: Byte, c: Byte)
    ensures var t := Triple(a, b, c); t / 0x4_0000 == a / 4 && t / 0x1000 % 64 == a % 4 * 16 + b / 16
  {
    var t := Triple(a, b, c);
    Over4096(a * 16 + b / 16, b % 16 * 0x100 + c);
    assert t == (a / 4) * 0x4_0000 + (a % 4 * 0x1_0000 + b * 0x100 + c);
    Over64(a / 4, a % 4 * 16 + b / 16);
  }

  lemma LowDigits(a: Byte, b: Byte, c: Byte)
    ensures var t := Triple(a, b, c); t / 64 % 64 == b % 16 * 4 + c / 64 && t % 64 == c % 64
  {
    Over64(a * 1024 + b * 4 + c / 64, c % 64);
    Over64(a * 16 + b / 16, b % 16 * 4 + c / 64);
  }

  lemma TripleDigits(a: Byte, b: Byte, c: Byte)
    ensures var t := Triple(a, b, c); Quad(t / 0x4_0000, t / 0x1000 % 64, t / 64 % 64, t % 64) == t
  {
    HighDigits(a, b, c);
    LowDigits(a, b, c);
  }

  lemma TripleBytes(a: Byte, b: Byte, c: Byte)
    ensures ThreeBytes(Triple(a, b, c)) == [a, b, c]
  {
    Over256(a * 256 + b, c);
    Over256(a, b);
    assert Triple(a, b, c) == a * 0x1_0000 + (b * 0x100 + c);
  }

  lemma QuadDigits(a: nat, b: nat, c: nat, d: nat)
    requires a < 64 && b < 64 && c < 64 && d < 64
    ensures var q := Quad(a, b, c, d); q / 0x4_0000 == a && q / 0x1000 % 64 == b && q / 64 % 64 == c && q % 64 == d
  {
    var q := Quad(a, b, c, d);
    assert q / 64 == (a * 64 + b) * 64 + c;
    assert q == (a * 64 + b) * 0x1000 + (c * 64 + d);
    assert q / 0x1000 == a * 64 + b;
    assert q == a * 0x4_0000 + (b * 0x1000 + c * 64 + d);
  }

  lemma QuadBytes(q: nat)
    requires q < 0x100_0000
    ensures Triple(q / 0x1_0000, q / 0x100 % 256, q % 256) == q
  {
    assert q / 0x100 / 0x100 == q / 0x1_0000;
  }

  /** Bytes written as base64 read back as themselves. */
  lemma {:induction false} Base64RoundTrip(bytes: seq<Byte>, groups: nat)
    requires |bytes| == 3 * groups
    ensures FromBase64(Base64(bytes, groups), groups) == Some(bytes)
  {
    if groups > 0 {
      var a, b, c := bytes[0], bytes[1], bytes[2];
      Base64RoundTrip(bytes[3..], groups - 1);
      TripleDigits(a, b, c);
      TripleBytes(a, b, c);
      Base64Step(bytes, groups);
      QuadAhead(Digits64(Triple(a, b, c)), Base64(bytes[3..], groups - 1), groups - 1);
      assert [a, b, c] + bytes[3..] == bytes;
    }
  }

  lemma QuadAhead(digits: Text, rest: Text, groups: nat)
    requires |digits| == 4 && |rest| == 4 * groups
    ensures FromBase64(digits + rest, groups + 1) ==
            if ReadQuad(digits).None? || FromBase64(rest, groups).None? then None
            else Some(ThreeBytes(ReadQuad(digits).value) + FromBase64(rest, groups).value)
  {
    assert (digits + rest)[4..] == rest;
    assert ReadQuad(digits + rest) == ReadQuad(digits);
  }

  lemma DigitsOfQuad(digits: Text)
    requires |digits| == 4 && ReadQuad(digits).Some?
    ensures Digits64(ReadQuad(digits).value) == digits
  {
    QuadDigits(Value64(digits[0]).value, Value64(digits[1]).value, Value64(digits[2]).value, Value64(digits[3]).value);
  }

  lemma GroupWritten(digits: Text, rest: seq<Byte>, groups: nat)
    requires groups > 0 && |digits| == 4 && ReadQuad(digits).Some? && |rest| == 3 * (groups - 1)
    ensures Base64(ThreeBytes(ReadQuad(digits).value) + rest, groups) == digits + Base64(rest, groups - 1)
  {
    var q := ReadQuad(digits).value;
    QuadBytes(q);
    DigitsOfQuad(digits);
    assert (ThreeBytes(q) + rest)[3..] == rest;
    Base64Step(ThreeBytes(q) + rest, groups);
  }

  lemma GroupReadsBack(digits: Text, rest: Text, groups: nat)
    requires groups > 0 && |digits| == 4 && |rest| == 4 * (groups - 1)
    requires ReadQuad(digits).Some? && FromBase64(rest, groups - 1).Some?
    requires Base64(FromBase64(rest, groups - 1).value, groups - 1) == rest
    ensures FromBase64(digits + rest, groups).Some?
    ensures Base64(FromBase64(digits + rest, groups).value, groups) == digits + rest
  {
    QuadAhead(digits, rest, groups - 1);
    GroupWritten(digits, FromBase64(rest, groups - 1).value, groups);
  }

  /** Base64 that reads at all is the text its bytes are written as: no second spelling. */
  lemma {:induction false} Base64ReadsBack(text: Text, groups: nat)
    requires |text| == 4 * groups && FromBase64(text, groups).Some?
    ensures Base64(FromBase64(text, groups).value, groups) == text
    decreases groups
  {
    if groups > 0 {
      FirstQuadReads(text, groups);
      Base64ReadsBack(text[4..], groups - 1);
      TextReadsBack(text, groups);
    }
  }

  lemma FirstQuadReads(text: Text, groups: nat)
    requires groups > 0 && |text| == 4 * groups && FromBase64(text, groups).Some?
    ensures ReadQuad(text[..4]).Some? && FromBase64(text[4..], groups - 1).Some?
  {
    assert text[..4] + text[4..] == text;
    QuadAhead(text[..4], text[4..], groups - 1);
  }

  lemma TextReadsBack(text: Text, groups: nat)
    requires groups > 0 && |text| == 4 * groups && FromBase64(text, groups).Some?
    requires ReadQuad(text[..4]).Some? && FromBase64(text[4..], groups - 1).Some?
    requires Base64(FromBase64(text[4..], groups - 1).value, groups - 1) == text[4..]
    ensures Base64(FromBase64(text, groups).value, groups) == text
  {
    GroupReadsBack(text[..4], text[4..], groups);
    assert text[..4] + text[4..] == text;
  }

  // Timestamps.

  const WORD := 0x1_0000_0000

  /** Seconds as the unsigned word that is stored: floored, modulo 2^32. */
  function Stamp(seconds: real): (stamp: nat)
    ensures stamp < WORD
  {
    seconds.Floor % WORD
  }

  function StampBytes(stamp: nat): (bytes: seq<Byte>)
    requires stamp < WORD
    ensures |bytes| == 4
  {
    [stamp / 0x100_0000, stamp / 0x1_0000 % 256, stamp / 0x100 % 256, stamp % 256]
  }

  function Word(a: nat, b: nat, c: nat, d: nat): nat {
    a * 0x100_0000 + (b * 0x1_0000 + c * 0x100 + d)
  }

  function ReadTimestamp(bytes: seq<Byte>): nat
    requires |bytes| >= 4
  {
    Word(bytes[0], bytes[1], bytes[2], bytes[3])
  }

  method WriteTimestamp(bytes: array<Byte>, seconds: real)
    requires bytes.Length >= 4
    modifies bytes
    ensures ReadTimestamp(bytes[..]) == seconds.Floor % WORD
    ensures bytes[..4] == StampBytes(Stamp(seconds)) && bytes[4..] == old(bytes[4..])
  {
    var unsigned := seconds.Floor % WORD;
    bytes[0] := unsigned / 0x100_0000;
    bytes[1] := unsigned / 0x1_0000 % 256;
    bytes[2] := unsigned / 0x100 % 256;
    bytes[3] := unsigned % 256;
    StampReads(unsigned);
  }

  lemma StampReads(stamp: nat)
    requires stamp < WORD
    ensures ReadTimestamp(StampBytes(stamp)) == stamp
  {
  }

  // Order.

  /** Character by character, a proper prefix first. */
  predicate Before(a: seq<int>, b: seq<int>) {
    if b == [] then false
    else if a == [] then true
    else if a[0] != b[0] then a[0] < b[0]
    else Before(a[1..], b[1..])
  }

  /** Hexadecimal text sorts as the bytes it spells. */
  lemma {:induction false} HexKeepsOrder(a: seq<Byte>, b: seq<Byte>)
    ensures Before(Hex(a), Hex(b)) == Before(a, b)
  {
    if a != [] && b != [] {
      HexKeepsOrder(a[1..], b[1..]);
      var s, t := Hex(a), Hex(b);
      assert s[1..][1..] == Hex(a[1..]) && t[1..][1..] == Hex(b[1..]);
      HexDigitsOrder(a[0] / 16, b[0] / 16);
      HexDigitsOrder(a[0] % 16, b[0] % 16);
      assert a[0] == 16 * (a[0] / 16) + a[0] % 16 && b[0] == 16 * (b[0] / 16) + b[0] % 16;
    }
  }

  lemma HexDigitsOrder(m: nat, n: nat)
    requires m < 16 && n < 16
    ensures HexDigit(m) < HexDigit(n) <==> m < n
    ensures HexDigit(m) == HexDigit(n) <==> m == n
  {
  }

  /** Ids whose stored timestamps differ sort, as hexadecimal text, by those timestamps. */
  lemma ChronologicalOrder(a: seq<Byte>, b: seq<Byte>)
    requires |a| == |b| == 12
    ensures ReadTimestamp(a) < ReadTimestamp(b) ==> Before(Hex(a), Hex(b))
    ensures Before(Hex(a), Hex(b)) ==> ReadTimestamp(a) <= ReadTimestamp(b)
  {
    HexKeepsOrder(a, b);
    if ReadTimestamp(a) < ReadTimestamp(b) {
      FirstFour(a, b);
    } else if ReadTimestamp(b) < ReadTimestamp(a) {
      FirstFour(b, a);
    }
  }

  lemma FirstFour(a: seq<Byte>, b: seq<Byte>)
    requires |a| >= 4 && |b| >= 4 && ReadTimestamp(a) < ReadTimestamp(b)
    ensures Before(a, b) && !Before(b, a)
  {
    var i := if a[0] != b[0] then 0 else if a[1] != b[1] then 1 else if a[2] != b[2] then 2 else 3;
    assert a[i] < b[i];
    FirstDifference(a, b, i);
  }

  lemma {:induction false} FirstDifference(a: seq<int>, b: seq<int>, i: nat)
    requires i < |a| && i < |b| && a[..i] == b[..i] && a[i] < b[i]
    ensures Before(a, b) && !Before(b, a)
  {
    if i > 0 {
      assert a[0] == a[..i][0] == b[..i][0] == b[0];
      assert a[1..][..i - 1] == a[..i][1..] && b[1..][..i - 1] == b[..i][1..];
      FirstDifference(a[1..], b[1..], i - 1);
    }
  }

  // Generating.

  const COUNTERS := 0x100_0000

  function CounterBytes(counter: nat): seq<Byte>
    requires counter < COUNTERS
  {
    [counter / 0x1_0000, counter / 0x100 % 256, counter % 256]
  }

  /** The twelve bytes of an id: timestamp, process value, counter. */
  function IdBytes(stamp: nat, unique: seq<Byte>, counter: nat): (bytes: seq<Byte>)
    requires stamp < WORD && |unique| == 5 && counter < COUNTERS
    ensures |bytes| == 12
  {
    StampBytes(stamp) + unique + CounterBytes(counter)
  }

  lemma CounterReads(counter: nat)
    requires counter < COUNTERS
    ensures var c := CounterBytes(counter); |c| == 3 && Triple(c[0], c[1], c[2]) == counter
  {
    QuadBytes(counter);
  }

  /** Two ids of one process are the same exactly when timestamp and counter are. */
  lemma IdsDiffer(s: nat, c: nat, t: nat, d: nat, unique: seq<Byte>)
    requires s < WORD && t < WORD && c < COUNTERS && d < COUNTERS && |unique| == 5
    ensures IdBytes(s, unique, c) == IdBytes(t, unique, d) <==> s == t && c == d
  {
    StampReads(s);
    StampReads(t);
    CounterReads(c);
    CounterReads(d);
    var a, b := IdBytes(s, unique, c), IdBytes(t, unique, d);
    assert a[..4] == StampBytes(s) && b[..4] == StampBytes(t);
    assert a[9..] == CounterBytes(c) && b[9..] == CounterBytes(d);
  }

  /** The counter after `n` more ids. */
  function CounterAfter(counter: nat, n: nat): (c: nat)
    ensures c < COUNTERS
  {
    (counter + n) % COUNTERS
  }

  lemma CountersMeet(start: nat, i: nat, j: nat)
    ensures CounterAfter(start, i) == CounterAfter(start, j) <==> (j - i) % COUNTERS == 0
  {
    var p, q := start + i, start + j;
    assert q - p == j - i;
    assert p == COUNTERS * (p / COUNTERS) + p % COUNTERS && q == COUNTERS * (q / COUNTERS) + q % COUNTERS;
    var k := (j - i) / COUNTERS;
    if (j - i) % COUNTERS == 0 {
      assert q == COUNTERS * (p / COUNTERS + k) + p % COUNTERS;
    }
  }

  /** The module's state: the process value and the counter. */
  class Generator {
    const unique: seq<Byte>
    var counter: nat

    ghost predicate Valid()
      reads this
    {
      |unique| == 5 && counter < COUNTERS
    }

    constructor (random: seq<Byte>, start: nat)
      requires |random| == 5 && start < COUNTERS
      ensures Valid() && unique == random && counter == start
    {
      unique, counter := random, start;
    }

    method NextCounter() returns (c: nat)
      requires Valid()
      modifies this
      ensures Valid() && c == counter == CounterAfter(old(counter), 1)
    {
      counter := (counter + 1) % COUNTERS;
      c := counter;
    }

    /** Twelve new bytes for the time given in seconds. */
    method Generate(time: real) returns (bytes: array<Byte>)
      requires Valid()
      modifies this
      ensures Valid() && counter == CounterAfter(old(counter), 1)
      ensures fresh(bytes) && bytes[..] == IdBytes(Stamp(time), unique, counter)
    {
      bytes := new Byte[12];
      WriteTimestamp(bytes, time);
      bytes[4], bytes[5], bytes[6], bytes[7], bytes[8] := unique[0], unique[1], unique[2], unique[3], unique[4];
      var inc := NextCounter();
      bytes[9] := inc / 0x1_0000 % 256;
      bytes[10] := inc / 0x100 % 256;
      bytes[11] := inc % 256;
      assert bytes[..4] == StampBytes(Stamp(time));
      assert inc / 0x1_0000 % 256 == inc / 0x1_0000;
      assert bytes[..] == bytes[..4] + unique + CounterBytes(inc);
    }

    /**
     * One id per time given: two of them are equal exactly when their stored
     * timestamps are and a whole number of counter cycles lies between them, so
     * any 2^24 in a row are distinct, whatever the clock did meanwhile.
     */
    method GenerateAll(times: seq<real>) returns (ids: seq<seq<Byte>>)
      requires Valid()
      modifies this
      ensures |ids| == |times|
      ensures forall i, j :: 0 <= i < |ids| && 0 <= j < |ids| ==>
                (ids[i] == ids[j] <==> Stamp(times[i]) == Stamp(times[j]) && (j - i) % COUNTERS == 0)
      ensures |ids| <= COUNTERS ==> forall i, j :: 0 <= i < j < |ids| ==> ids[i] != ids[j]
    {
      ids := [];
      ghost var start := counter;
      var n := 0;
      while n < |times|
        invariant Valid() && 0 <= n <= |times|
        invariant counter == CounterAfter(start, n)
        invariant Made(ids, times[..n], unique, start)
      {
        var bytes := Generate(times[n]);
        NextAfter(start, n);
        MadeNext(ids, times[..n], times[n], unique, start);
        ids := ids + [bytes[..]];
        assert times[..n + 1] == times[..n] + [times[n]];
        n := n + 1;
      }
      assert times[..n] == times;
      MadeDistinct(ids, times, unique, start);
    }
  }

  /** `ids` are those made for `times` when the counter stood at `start`. */
  ghost predicate Made(ids: seq<seq<Byte>>, times: seq<real>, unique: seq<Byte>, start: nat)
    requires |unique| == 5
  {
    |ids| == |times| && forall i :: 0 <= i < |ids| ==> ids[i] == IdBytes(Stamp(times[i]), unique, CounterAfter(start, i + 1))
  }

  lemma NextAfter(start: nat, n: nat)
    ensures CounterAfter(CounterAfter(start, n), 1) == CounterAfter(start, n + 1)
  {
  }

  lemma MadeNext(ids: seq<seq<Byte>>, times: seq<real>, time: real, unique: seq<Byte>, start: nat)
    requires |unique| == 5 && Made(ids, times, unique, start)
    ensures Made(ids + [IdBytes(Stamp(time), unique, CounterAfter(start, |ids| + 1))], times + [time], unique, start)
  {
  }

  lemma MadeDistinct(ids: seq<seq<Byte>>, times: seq<real>, unique: seq<Byte>, start: nat)
    requires |unique| == 5 && Made(ids, times, unique, start)
    ensures forall i, j :: 0 <= i < |ids| && 0 <= j < |ids| ==>
              (ids[i] == ids[j] <==> Stamp(times[i]) == Stamp(times[j]) && (j - i) % COUNTERS == 0)
    ensures |ids| <= COUNTERS ==> forall i, j :: 0 <= i < j < |ids| ==> ids[i] != ids[j]
  {
    forall i, j | 0 <= i < |ids| && 0 <= j < |ids|
      ensures ids[i] == ids[j] <==> Stamp(times[i]) == Stamp(times[j]) && (j - i) % COUNTERS == 0
    {
      IdsDiffer(Stamp(times[i]), CounterAfter(start, i + 1), Stamp(times[j]), CounterAfter(start, j + 1), unique);
      CountersMeet(start, i + 1, j + 1);
    }
  }

  // The id object.

  /** A byte array it alone holds, and perhaps the hexadecimal text of it. */
  class ObjectId {
    var bytes: array<Byte>
    var hex: Option<Text>

    ghost predicate Valid()
      reads this, bytes
    {
      hex.Some? ==> hex.value == Hex(bytes[..])
    }

    /** From 24 hexadecimal digits in either case; the text kept is the lowercase one. */
    constructor FromHexString(source: Text, cacheHexString: bool)
      requires IsHex(source) && |source| == 24
      ensures Valid() && fresh(bytes)
      ensures bytes[..] == FromHex(source)
      ensures hex == if cacheHexString then Some(Lower(source)) else None
    {
      var read := HexToBytes(source);
      bytes := read;
      hex := if cacheHexString then Some(Lower(source)) else None;
      new;
      HexReadsBack(source);
    }

    /** A copy of twelve bytes: later writes to `view` do not reach the id. */
    constructor FromBytes(view: array<Byte>)
      requires view.Length == 12
      ensures Valid() && fresh(bytes)
      ensures bytes[..] == view[..]
    {
      var copy := new Byte[12];
      forall i | 0 <= i < 12 {
        copy[i] := view[i];
      }
      bytes := copy;
      hex := None;
      new;
      assert bytes[..] == view[..];
    }

    /** The live bytes, not a copy: a caller may write to them. */
    method Bytes() returns (view: array<Byte>)
      ensures view == bytes
    {
      view := bytes;
    }

    /** Replaces the bytes; a text kept of the old ones is dropped or replaced with them. */
    method SetId(view: array<Byte>, cacheHexString: bool)
      modifies this
      ensures Valid() && fresh(bytes) && bytes[..] == view[..]
    {
      var copy := new Byte[view.Length];
      forall i | 0 <= i < view.Length {
        copy[i] := view[i];
      }
      assert copy[..] == view[..];
      bytes := copy;
      hex := None;
      if cacheHexString {
        var text := BytesToHex(copy);
        hex := Some(text);
      }
    }

    /** The text kept, or else that of the bytes held now: of those bytes exactly while the kept text is theirs. */
    method ToHexString(cacheHexString: bool) returns (text: Text)
      modifies this`hex
      ensures text == if old(hex).Some? then old(hex).value else Hex(bytes[..])
      ensures text == Hex(bytes[..]) <==> old(Valid())
      ensures Valid() <==> old(Valid())
    {
      if hex.Some? {
        return hex.value;
      }
      text := BytesToHex(bytes);
      if cacheHexString {
        hex := Some(text);
      }
    }
  }

  /**
   * Writing byte `i` through the view an id hands out: a text kept of it does not
   * follow, and is wrong unless the byte written was already there.
   */
  method WriteThroughView(source: Text, i: nat, b: Byte) returns (id: ObjectId, text: Text)
    requires IsHex(source) && |source| == 24 && i < 12
    ensures |FromHex(source)| == 12 && fresh(id) && id.bytes[..] == FromHex(source)[i := b]
    ensures text == Lower(source)
    ensures text == Hex(id.bytes[..]) <==> b == FromHex(source)[i]
  {
    HexReadsBack(source);
    id := new ObjectId.FromHexString(source, true);
    ghost var before := id.bytes[..];
    assert id.hex == Some(Lower(source));
    var view := id.Bytes();
    view[i] := b;
    assert id.bytes[..] == before[i := b];
    HexRoundTrip(before);
    HexRoundTrip(id.bytes[..]);
    text := id.ToHexString(true);
  }

  /** An id from its 24-character text, refused unless every character is a hexadecimal digit. */
  method CreateFromHexString(source: Text, cacheHexString: bool) returns (id: Option<ObjectId>)
    ensures id.Some? <==> |source| == 24 && IsHex(source)
    ensures id.Some? ==> fresh(id.value) && id.value.Valid() && Hex(id.value.bytes[..]) == Lower(source)
  {
    if |source| != 24 || exists u :: u in source && HexValue(u).None? {
      return None;
    }
    HexReadsBack(source);
    var made := new ObjectId.FromHexString(source, cacheHexString);
    id := Some(made);
  }

  /** An id from its 16-character base64 text, refused unless every character is a digit. */
  method CreateFromBase64(text: Text) returns (id: Option<ObjectId>)
    ensures id.Some? <==> |text| == 16 && FromBase64(text, 4).Some?
    ensures id.Some? ==> fresh(id.value) && id.value.Valid() && id.value.bytes.Length == 12 && Base64(id.value.bytes[..], 4) == text
  {
    if |text| != 16 {
      return None;
    }
    var bytes := Base64ToBytes(text, 4);
    if bytes.None? {
      return None;
    }
    Base64ReadsBack(text, 4);
    var made := new ObjectId.FromBytes(bytes.value);
    id := Some(made);
  }
}
